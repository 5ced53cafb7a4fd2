# Wattcoin main-process state machines: a Dafny model

This project models the state machines and arithmetic of Wattcoin's Electron main process and proves
what they keep over whole runs. `dafny verify dfyconfig.toml` checks all of it.

| part | files | what it is about |
|---|---|---|
| Round ledger | `Contributions`, `RewardSplit`, `LedgerState`, `RoundLedger`, `RewardMap`, `Settlement`, `Maturity` | energy totals of the running round, settlement of a block into rounded shares, maturing at a height, the second splitter; who is paid what, and when |
| Emission | `TierSchedule`, `Emission` | 21 halving tiers, block by block and tier by tier |
| Burn chain | `BurnChain`, `BurnWorker` | the iterated-hash proof computed in bursts |
| Time windows | `RateWindow`, `RateLimiter`, `RateLimiterObject`, `BanWindow`, `PeerBans` | rate limits with locks and their file; failure windows and bans |
| Reverse tunnel | `TunnelState`, `ReverseTunnel`, `TunnelReplies` | sessions, their index by identity, forwarded requests; which reply each gets |
| Attestation | `AttestationState`, `Attestation`, `AttestationHistory` | challenges, and submissions split at their `await`; what an accept rests on |
| GPU controller | `LineFramer`, `CommandQueue` | cutting the output into lines; the command queue |
| STUN | `Stun` | the attribute loop and address parsers of a binding response |
| Peer choice | `PeerPreference` | the preferred peer URL against the sorted list |
| Shared | `Rounding`, `Powers`, `Text`, `JsObject`, `ByteString`, `Sequences` | `toFixed`, 32-bit numbers, powers of two, `trim`, objects in insertion order, bytes, concatenation |

Each stateful part has the same shape. A state as a value, with a function for each operation and for a
run of events, carries the invariants and the results over all runs. A class holds the fields the
program updates in place; its methods, with the program's branches and loops, are proved to turn the
state into what those functions say. What the functions themselves mean is then proved in terms of the
inputs and events alone: who is paid, what matures when, which reply or verdict follows from what.

How the program's values are taken:

- Amounts of coin and energy are counted in units of 1e-8. Incoming amounts are real numbers of units,
  stored ones whole units; `toFixed(8)` is rounding to a unit, halves away from zero, without
  floating-point error. Exact tier rewards are whole numbers of 1/512 unit.
- `Date.now()` is an argument of each operation. Where a result needs it, it says that the clock does
  not run back.
- Objects used as dictionaries keep insertion order where order matters (which contributor is last).
  Addresses are never array indices, so insertion order is enumeration order.
- SHA-256 in the burn chain is an arbitrary function of which only the digest length is known. The
  replay key of attestation is the tuple that is hashed, so the hash is taken to be free of collisions.
  Signatures, wallet ownership, jitter, whether a URL is pinned and whether a socket is open are
  parameters of the events. `rewardForHeight` is a parameter.
- `Math.round` of the measured operations in a replay key is taken as the same rounding; the two differ
  only below zero, where a measured speed never lies.
- Random ids (tunnels, requests, challenges) are drawn fresh.
- In the program a suspended attestation submission resumes in the next microtask, before anything else
  happens; `AcceptedOnceInTurn` is about such runs and asks nothing else of clock or waiting times. The
  results over every interleaving, `AcceptsSound` and `AlwaysKept`, let submissions overlap for at most
  twelve hours less the two-minute challenge lifetime; `EvictedAcceptedTwice` shows that they need a bound.
- Whether the headers of a tunnel's response are legal is a parameter of the response. A status is a real
  number, cut to 32 bits as Node's `writeHead` does.

## What the code does not keep

Where a natural expectation is false of the code, the model keeps the code and proves the exact
condition, or a concrete way it fails.

- Shares need not add up to the reward: `OverpaymentExample`, with `PaidBounds` for when they do.
- Signed updates do not converge in every delivery order. They do exactly when no older total, rounded to
  units, exceeds the newest positive one as sent, and no zero comes after that one unless it rounds to a
  unit: `OrderIrrelevantIff`. `FractionsDiverge` and `LateZeroExamples` are the counterexamples. Totals that
  never shrink with time and are whole units always converge: `WholeUnitsConverge`.
- The two reward splitters differ on an untrimmed fallback address and on a fractional reward that
  falls to the fallback: `SplittersAgreeIff`.
- A success does not always leave the newest failure behind: a lone failure is forgotten altogether
  (`SuccessKeepsNewestIff`, `LoneFailureForgotten`).
- A forwarded request may vanish unanswered, without its timer: by a stop after its tunnel went, or by a
  response of its own tunnel that `writeHead` refuses, because the entry is removed first: `VanishesIff`,
  `VanishedForGood`, with the runs `UnsendableResponseRun` and `MuteRequestRun`. Stopping the coordinator
  answers only requests whose tunnel is still live: `StopAnswersIff`.
- The type the program takes for a MAPPED-ADDRESS is 0x0004. The standard one is 0x0001 (section 18.2 of
  RFC 5389), so a server that sends only that is not understood: `PlainAddressComesBack`, `OthersNotFound`.
- `syncMaturity` at height zero counts the archived rounds each time, though none of them matures:
  `CountOfMaturing`.
- A restart forgets the recent calls of the rate limiter, so up to `max` more are accepted in a window for
  each restart in it, and no more: `EndpointLimitHolds`, `EndpointLimitReached`.
- A GPU timeout drops the queue without settling it, and what an exit leaves in the queue is lost the same
  way: `LostIff`, `LostForGood`, `ExitStrandsQueue`, and `ExitRun` for a run.
- The first call after a lock is accepted because every lock of the table outlasts its window:
  `FirstCallAfterLock`, and `ShortLockRefuses` for what happens otherwise.

Two boundaries of the model lie beyond what the program reaches. Only submissions that overlap at their
`await` could have a challenge accepted twice, namely when it is measured anew between them
(`BothAcceptedIff`, `RemeasuredAcceptedTwice`). And only from 2^31 operations in one turn on would
`seedTotalOps` and `seedAbsoluteStep` part (`CountersAgreeIff`).

## Model

| member | source | states |
|---|---|---|
| RewardSplit.PaidBounds | electron-main/round-ledger.js:478-490 | for any reward and n positive contributions the shares sum to at least the reward rounded to units and at most the reward plus (n-1)/2 units; they sum to it exactly when what the others were given does not exceed it, and always when the last exact share is at least (n-1)/2 units |
| RewardSplit.ShareBounds | electron-main/round-ledger.js:481-489 | every share but the last is within half a unit of the exact one, the last within (n-1)/2 (half a unit more if the reward is not whole), none negative |
| RewardSplit.OverpaymentExample | electron-main/round-ledger.js:486-487 | four equal contributors to two units are paid three |
| RewardSplit.LoopShareIsShare | electron-main/round-ledger.js:483-487 | the share computed from the running allocation, cut at zero, is the declarative share |
| RewardSplit.ShareMapAmounts | electron-main/round-ledger.js:488 | the map has exactly the addresses of the claims, each with the sum of its shares, also when trimmed addresses coincide |
| RewardSplit.ShareMapSum | electron-main/round-ledger.js:478-490 | the map's values add up to the shares paid: nothing is lost when addresses coincide |
| RewardSplit.ClaimsAreProper | electron-main/round-ledger.js:468-470 | what is left after trimming and filtering has a trimmed non-empty address and positive energy (who is left: `Settlement.SettlementPaysByEnergy`) |
| Settlement.SettlementPaysByEnergy | electron-main/round-ledger.js:465-513 | a new block with a positive reward pays exactly the trimmed addresses that bring positive energy, each within half a unit per entry (the last one within its known bound) of the reward times its own energy over all the energy; the shares come to the reward within the rounding bounds; if nobody brings energy the mining address is paid alone |
| Settlement.RunningRoundPaid | electron-main/round-ledger.js:465-490 | without energies handed in, in every reachable ledger: each address with a running total is paid its total over the sum of all totals |
| Settlement.SettledIffNew | electron-main/round-ledger.js:448-457 | a block is settled if and only if its hash is empty or no settled round has it; otherwise nothing changes |
| Settlement.SettlementRecord | electron-main/round-ledger.js:459-526 | the record holds the id, the reward given or that of the number of rounds, the trimmed hash and address, the height and the height plus 100; the next round is empty; pending balances grow by the shares and matured ones stay |
| LedgerState.ReachableConsistent | electron-main/round-ledger.js:417-528 | in every state reached by contributing, beginning, archiving, settling and syncing, at any heights, each address's pending is the sum of its shares in unmatured settled rounds, its matured the sum in matured ones, and non-empty block hashes of settled rounds are distinct |
| LedgerState.StepKeepsConsistent | electron-main/round-ledger.js:275-547 | each operation keeps that invariant |
| LedgerState.SyncKeepsConsistent | electron-main/round-ledger.js:417-441 | maturing moves exactly the shares of the rounds that ripen |
| LedgerState.SettleKeepsConsistent | electron-main/round-ledger.js:443-528 | settling credits exactly the new round's shares to pending |
| LedgerState.PendingCovers | electron-main/round-ledger.js:431 | the pending balance covers every share about to be taken, so cutting at zero never cuts anything |
| LedgerState.ShiftedNext | electron-main/round-ledger.js:426-433 | one turn of the inner loop moves the amount from pending to matured with pending large enough |
| LedgerState.MaturedForGood | electron-main/round-ledger.js:421-437 | rounds are only added; a settled round changes only from unmatured to matured and then stays, whatever heights follow |
| LedgerState.MatureOnce | electron-main/round-ledger.js:423-434 | a settled round ripens at a positive height, so the truthiness test on the recorded height counts it as matured from then on |
| Maturity.SyncMaturesIff | electron-main/round-ledger.js:417-441 | a settled round is matured after a sync if and only if it was before or its block height plus 100 is reached, an archived one if and only if it was or the height is positive; nothing else of a round changes |
| Maturity.MaturedIffReached | electron-main/round-ledger.js:417-441 | in every run a settled round has matured if and only if, since it was settled, some sync reached its block height plus 100 |
| Maturity.BalancesByHeight | electron-main/round-ledger.js:417-528 | in every run matured coins are the shares in the settled rounds that some later sync has found 100 blocks deep, pending coins those in the others |
| Maturity.CountOfMaturing | electron-main/round-ledger.js:419-440 | the number returned is that of the rounds that mature; at height zero it is that of the unmatured archived rounds, though none matures |
| LedgerState.SettleOnce | electron-main/round-ledger.js:448-457 | settling a non-empty hash that is already settled changes nothing |
| LedgerState.OnlySettlementCredits | electron-main/round-ledger.js:417-528 | only a new settlement changes what an address owns in all, by its share; matured never falls |
| LedgerState.SettlementPays | electron-main/round-ledger.js:459-490 | a new round with a positive reward and a claim pays out its reward within the rounding bounds |
| LedgerState.SupplyNeverExceeded | electron-main/round-ledger.js:459-462 | over any run the default rewards add up to at most 21,000,000 coins |
| LedgerState.DefaultRewardsBound | electron-main/round-ledger.js:459-462 | each default settlement uses a reward index of its own, because rounds only grow |
| LedgerState.NewRoundProper | electron-main/round-ledger.js:478-513 | a new round matures 100 blocks after its own, and its shares are non-negative and go to trimmed addresses |
| LedgerState.BeginClears | electron-main/round-ledger.js:392-415 | another id starts a round with nothing in any of its objects, the same id goes on; rounds and balances stay |
| LedgerState.ArchiveRecords | electron-main/round-ledger.js:530-547 | a round with contributions is recorded whole and goes on running |
| LedgerObject.RoundLedger.AddContribution | electron-main/round-ledger.js:275-293 | the method makes of the ledger what the specification says, keeps the invariant and returns the energy accepted |
| LedgerObject.RoundLedger.SetRoundContribution | electron-main/round-ledger.js:303-376 | the same, with the outcome of the call |
| LedgerObject.RoundLedger.BeginRound | electron-main/round-ledger.js:392-415 | the same; a different id starts an empty round |
| LedgerObject.RoundLedger.ArchiveCurrentRound | electron-main/round-ledger.js:530-547 | the same; an empty round leaves no record |
| LedgerObject.RoundLedger.EnsureBalance | electron-main/round-ledger.js:263-273 | for the trimmed address a missing balance is created as zero, others are untouched; an empty one gives nothing |
| LedgerObject.RoundLedger.SplitShares | electron-main/round-ledger.js:478-490 | the loop over the contributors computes the specified share map |
| LedgerObject.RoundLedger.CreditShares | electron-main/round-ledger.js:492-498 | the loop over the shares adds each to its pending balance and nothing else |
| LedgerObject.RoundLedger.SettleCurrentRound | electron-main/round-ledger.js:443-528 | the method settles if and only if the block is new, pays by energy, and appends exactly the new record |
| LedgerObject.RoundLedger.MoveShares | electron-main/round-ledger.js:425-433 | the inner maturing loop, with its cut at zero, moves exactly the shares of the round |
| LedgerObject.RoundLedger.MatureRound | electron-main/round-ledger.js:421-437 | one turn of the outer maturing loop: a ripe round matures and its shares move, any other is left alone |
| LedgerObject.RoundLedger.SyncMaturity | electron-main/round-ledger.js:417-441 | the method matures exactly the rounds due, moves exactly their shares and returns their number |
| Contributions.AddNeverLowers | electron-main/round-ledger.js:275-293 | adding never lowers any address's total |
| Contributions.AddAdds | electron-main/round-ledger.js:275-293 | a positive amount is added to the trimmed address, exactly if whole and within half a unit otherwise, at the end if it is new; nothing else changes |
| Contributions.AddsAddUp | electron-main/round-ledger.js:275-293 | any sequence of additions adds up, exactly in whole units and within half a unit each otherwise |
| Contributions.SetNeverLowers | electron-main/round-ledger.js:303-376 | setting never lowers any address's total |
| Contributions.SetTakenIff | electron-main/round-ledger.js:303-376 | a positive total is taken if and only if it is not older, or brings the first signature, and is not smaller; otherwise nothing changes |
| Contributions.SetClearsIff | electron-main/round-ledger.js:347-363 | a total of nothing clears the address under the same condition if there is no positive total to reduce; otherwise nothing changes |
| Contributions.SetTouchesOne | electron-main/round-ledger.js:303-376 | a set call changes nothing of any other address |
| Contributions.SetIsSlotStep | electron-main/round-ledger.js:303-376 | for signed updates the four objects of the round act as one slot per address |
| Contributions.OrderIrrelevantIff | electron-main/round-ledger.js:311-365 | signed updates with one total per timestamp, zero totals included, end alike in every delivery order, with any repetitions, if and only if no older total rounds to more than the newest positive one was sent with, and no zero comes after that one unless it rounds to at least a unit |
| Contributions.NewestWins | electron-main/round-ledger.js:311-365 | under that condition every order ends in the newest positive update |
| Contributions.NeverShrinkingIff | electron-main/round-ledger.js:311-365 | totals that never shrink with time, zeros included, end alike in every order if and only if no older one rounds to more than the newest was sent with; they then end in the newest |
| Contributions.OnlyZeros | electron-main/round-ledger.js:347-363 | without a positive total every order ends in nothing |
| Contributions.DeliveryEndsInNewest | electron-main/round-ledger.js:303-376 | stated of the round itself: its total and timestamp for the address are those of the newest positive update |
| Contributions.WholeUnitsConverge | electron-main/round-ledger.js:311-365 | in whole units, totals that never shrink with time always converge, zero totals included |
| Contributions.FractionsDiverge | electron-main/round-ledger.js:333-345 | 1.6 units at time 3 and 1.7 at time 5 end differently in the two orders |
| Contributions.LateZeroExamples | electron-main/round-ledger.js:334-363 | a later zero is ignored over five units and, over 0.3 units, ends differently in the two orders |
| Contributions.UnsignedTimestampDoesNotBlock | electron-main/round-ledger.js:311-331 | an unsigned timestamp, however late, cannot keep out a signed update; once signed, an older one is stale |
| RewardMap.SplittersAgreeIff | electron-main/round-contributions.js:482-508 | the second splitter gives the ledger's map if and only if the reward is not positive, or there is a claim, or there is no fallback address, or the fallback is trimmed and the reward whole |
| Settlement.RewardMapPaysByEnergy | electron-main/round-contributions.js:482-508 | the second splitter pays the same addresses in the same proportion, or else the fallback address |
| RewardMap.BuildRewardMapFromRoundSnapshot | electron-main/round-contributions.js:482-508 | its early returns and loop compute the specified map |
| RewardMap.SplitAmongClaims | electron-main/round-contributions.js:497-507 | its own loop computes the declarative share map |
| TierSchedule.SumBlocksIsMint | electron-main/main-utils.js:442-448 | jumping whole tiers gives the block-by-block sum |
| TierSchedule.SumTiers | electron-main/main-utils.js:440-448 | the loop over the tiers computes the block-by-block sum |
| TierSchedule.MintDrift | electron-main/main-utils.js:439-450 | two schedules that agree on their first tiers differ by no more than the extremes of the drift of the later ones, and not at all before |
| Emission.TierBlocksIsQuotient | electron-main/round-ledger.js:32-33 | a tier has 1000 * 2^t blocks, as the rounded quotient of the program |
| Emission.TierUnitsIsQuotient | electron-main/round-ledger.js:32-34 | the rounded reward in units is `toFixed(8)` of 1000 / 2^t coins |
| Emission.ExactRateIsQuotient | electron-main/main-utils.js:439-450 | the exact reward of a tier, in 1/512 of a unit, is 1000 / 2^t coins |
| Emission.RewardOfTier | electron-main/round-ledger.js:29-38 | the reward of an index is that of the tier it lies in |
| Emission.RewardPastLastTier | electron-main/round-ledger.js:37 | past the last tier it is nothing |
| Emission.RewardForRoundIndex | electron-main/round-ledger.js:29-38 | the loop computes that reward for any index |
| Emission.ComputeWattcoinFromMinedBlocks | electron-main/main-utils.js:439-450 | the tier-jumping total is the block-by-block sum of unrounded rewards, rounded once |
| Emission.ComputedAgainstLedger | electron-main/main-utils.js:439-450 | it equals the sum of the ledger's rounded rewards up to 4,095,000 blocks, and stays within 3.50208 coins and a unit of it for every count |
| Emission.SupplyBound | electron-main/round-ledger.js:29-38 | the default rewards of any number of rounds add up to at most 21,000,000 coins |
| Emission.RoundedTotal | electron-main/round-ledger.js:29-38 | the whole schedule emits 20,999,996.49792 coins |
| Emission.Tier12Exceeds | electron-main/round-ledger.js:32-34 | tier 12 alone emits more than its 1,000,000 coins |
| BurnChain.BurstsIrrelevant | electron-main/cpu-load-worker.js:43-137 | however the work is cut into bursts and seeds change, state, recorded states and every posted proof are those of one uninterrupted burn per seed, and the two counters agree between turns |
| BurnChain.IterateSplit | electron-main/cpu-load-worker.js:60-74 | burning m and then n steps gives the state and records of m + n |
| BurnChain.OneStep | electron-main/cpu-load-worker.js:60-71 | one step hashes the state, its number as four bytes, lowest first, modulo 2^32, and the seed cut or filled with zeros to 32 bytes |
| BurnChain.FirstState | electron-main/cpu-load-worker.js:46-54 | the chain starts from the digest of 32 zeros and the seed |
| BurnChain.RecordedStates | electron-main/cpu-load-worker.js:68-71 | recorded are exactly the states after the steps 0, 256, 512 and so on |
| BurnChain.ProofOfRecords | electron-main/cpu-load-worker.js:97-116 | the proof carries the end state, the number of operations, and the digest of all recorded states in order |
| BurnChain.LittleEndianValue | electron-main/cpu-load-worker.js:65-66 | the bytes of a step number stand for it modulo a power of 256 |
| BurnChain.CountersAgreeIff | electron-main/cpu-load-worker.js:60-73 | one turn keeps the counters equal if and only if its operations are below 2^31 |
| BurnWorkerObject.BurnWorker.BurnCpuOps | electron-main/cpu-load-worker.js:43-83 | the method with its first-call branch does one burst |
| BurnWorkerObject.BurnWorker.HashLoop | electron-main/cpu-load-worker.js:60-71 | the hashing loop computes the iterated state and the states of steps divisible by 256 |
| BurnWorkerObject.BurnWorker.HashStep | electron-main/cpu-load-worker.js:64-67 | filling the reused 68-byte buffer and hashing it is one step of the chain |
| BurnWorkerObject.BurnWorker.SetActiveSeed | electron-main/cpu-load-worker.js:121-137 | a new seed submits the old proof and resets, the same seed does nothing |
| BurnWorkerObject.BurnWorker.SubmitSeedProof | electron-main/cpu-load-worker.js:97-116 | a proof is posted from 1000 operations on |
| RateWindow.AtMostMax | electron-main/rate-limiter.js:65-95 | any half-open interval as long as the window holds at most `max` accepted calls, and as many again for each restart in it |
| RateWindow.BoundReached | electron-main/rate-limiter.js:65-95 | that bound is reached with any number of restarts |
| RateWindow.TraceRefines | electron-main/rate-limiter.js:41-95 | through any restarts, every answer from the pruned list and lock is the one the full history calls for: locked while any lock of it runs, exceeded as the call that overfills the window since the last restart, accepted otherwise |
| RateWindow.NextJustified | electron-main/rate-limiter.js:41-95 | the next answer after any run is the one the full history calls for, a lock with the end of the last lock in it |
| RateWindow.StepRefines | electron-main/rate-limiter.js:46-93 | one call or restart keeps the pruned entry a refinement of the full history |
| RateWindow.FirstCallAfterLock | electron-main/rate-limiter.js:46-93 | if locks last at least as long as the window, the first call after a lock is accepted, restarts or not |
| RateWindow.ShortLockRefuses | electron-main/rate-limiter.js:65-69 | for any limit with a shorter lock there is a burst after which it is refused |
| RateLimiter.EndpointLimitHolds | electron-main/rate-limiter.js:35-95 | for every endpoint of the table, every actor and every run, at most `max` calls are accepted in a window, and as many again for each restart in it |
| RateLimiter.EndpointLimitReached | electron-main/rate-limiter.js:27-95 | for every endpoint and number of restarts there is a run that reaches this, because a restart forgets the calls |
| RateLimiter.SendingLimit | electron-main/rate-limiter.js:18 | without a restart at most three sends are accepted in any ten minutes |
| RateLimiter.AnswersJustified | electron-main/rate-limiter.js:35-95 | in every run every answer is the one the key's own history calls for: the locks of all of it, the calls since the last restart |
| RateLimiter.FirstAnswerAfterLock | electron-main/rate-limiter.js:35-95 | in every run the first call after any lock of a proper table is accepted |
| RateLimiter.TheTableIsProper | electron-main/rate-limiter.js:10-23 | every row has `max` at least one, a lock at least as long as its window, and a name without a colon |
| RateLimiter.KeysDistinct | electron-main/main-utils.js:346-348 | limited endpoints share an entry only with themselves and per actor; no actor is the local client |
| RateLimiter.OthersUnlimited | electron-main/rate-limiter.js:36-39 | an endpoint outside the table is never refused |
| RateLimiter.KeyRunsAlone | electron-main/rate-limiter.js:41-95 | each key's part of a run is the run of its own calls and the restarts |
| RateLimiter.MemoryAndFileAgree | electron-main/rate-limiter.js:27-71 | in every run, restarts included, memory and lock file agree on which keys are locked and until when |
| RateLimiter.ReloadsLock | electron-main/rate-limiter.js:27-29 | because memory and file agree, a restart keeps exactly the running lock of each key |
| RateLimiter.RestartKeepsLocks | electron-main/persistence.js:27-40 | a restart refuses as locked exactly the calls that would have been so without it, until the same times |
| RateLimiterObject.EndpointRateLimiter.LoadLocks | electron-main/persistence.js:27-41 | the loop takes over exactly the locks still running |
| RateLimiterObject.EndpointRateLimiter.SaveLock | electron-main/persistence.js:43-63 | the file is rewritten with the locks still running and the new one |
| RateLimiterObject.EndpointRateLimiter.EnforceEndpointRateLimit | electron-main/rate-limiter.js:35-95 | the method answers and updates memory and file as specified |
| BanWindow.BannedIff | electron-main/peer-ban-tracking.js:36-50 | a query says banned if and only if the peer is not pinned and the latest ban of the full history has not run out |
| BanWindow.FailureBansIff | electron-main/peer-ban-tracking.js:83-97 | a failure bans an unpinned peer for 30 minutes if and only if it makes eight retained failures within ten minutes, and then forgets all; stored lists stay below eight |
| BanWindow.SuccessKeepsNewestIff | electron-main/peer-ban-tracking.js:99-109 | a success leaves exactly the newest failure if and only if a second one lies in the window before it |
| BanWindow.LoneFailureForgotten | electron-main/peer-ban-tracking.js:103-105 | a lone failure is forgotten by a success |
| BanWindow.HistoryRefined | electron-main/peer-ban-tracking.js:36-109 | after any events the stored list is the retained failures cut to the window before the newest, and the stored ban agrees with the history |
| BanWindow.FailureRefines | electron-main/peer-ban-tracking.js:83-97 | a failure, with its ban, keeps stored failures and ban in agreement with the history |
| BanWindow.PushRefines | electron-main/main-utils.js:459-470 | pushing and pruning the stored list does what it would do to all retained failures, and the cap on its length never matters |
| PeerBans.BanTracker.IsPeerUrlBanned | electron-main/peer-ban-tracking.js:36-50 | the query answers and cleans up as specified; other URLs are untouched |
| PeerBans.BanTracker.IsPeerIdentityBanned | electron-main/peer-ban-tracking.js:24-34 | the same for identities |
| PeerBans.BanTracker.BanPeerUrl | electron-main/peer-ban-tracking.js:60-69 | an unpinned URL is banned for the duration |
| PeerBans.BanTracker.BanPeerIdentity | electron-main/peer-ban-tracking.js:52-58 | an identity is banned for the duration |
| PeerBans.BanTracker.RecordPeerUrlFailure | electron-main/peer-ban-tracking.js:83-97 | one key moves as specified, every other stays |
| PeerBans.BanTracker.RecordPeerIdentityFailure | electron-main/peer-ban-tracking.js:71-81 | the same for identities |
| PeerBans.BanTracker.RecordPeerUrlSuccess | electron-main/peer-ban-tracking.js:99-109 | the same for a success |
| PeerBans.BanTracker.ForgetPeerUrlState | electron-main/peer-networking.js:402-412 | dropping a peer from the directory forgets its failures and nothing else |
| TunnelState.AlwaysKept | electron-main/reverse-tunnel.js:103-362 | after any possible sequence of connects, replacements, closes, errors and stops, however late or repeated, the identity map is an exact index of the live sessions with an identity, and every pending request has its timer and an unanswered response object of its own |
| TunnelState.DestroyKeeps | electron-main/reverse-tunnel.js:120-162 | destroying a session, also twice, keeps this |
| TunnelState.ConnectKeeps | electron-main/reverse-tunnel.js:310-351 | a connect, replacing an earlier session or not, keeps this |
| TunnelReplies.LiveIff | electron-main/reverse-tunnel.js:120-362 | a session is live after an event if and only if the event opens it and is not from the own peer, or it was live and is neither closed, nor replaced by its own identity, nor stopped |
| TunnelState.AnsweredOnce | electron-main/reverse-tunnel.js:103-305 | over every interleaving a response object keeps the first answer it gets |
| TunnelState.AnswerIsFinal | electron-main/reverse-tunnel.js:103-305 | no event sends on a response object that has been answered |
| TunnelState.RelayedFromOwnTunnel | electron-main/reverse-tunnel.js:169-183 | a tunnel's response is used only for a request forwarded to the same tunnel, and leaves neither entry nor timer |
| TunnelReplies.ReplyIff | electron-main/reverse-tunnel.js:103-305 | a waiting request gets the response of its own tunnel exactly when that sends one that can be relayed, a timeout exactly when its timer fires, and a cut-off exactly when its tunnel is closed, replaced, or stopped while live |
| TunnelReplies.ArrivalDecided | electron-main/reverse-tunnel.js:247-268 | an arriving request is refused on a tunnel that is gone or not open, else if too many wait, else off the interface, each with its reply; otherwise its body is read |
| TunnelReplies.ReadingUntilRead | electron-main/reverse-tunnel.js:268-293 | a request whose body has been read is forwarded with its timer; until then it is neither answered nor dropped |
| TunnelReplies.AcceptedIff | electron-main/reverse-tunnel.js:174-181 | a response can be relayed if and only if its headers are legal and its status is below 100 or has three digits once cut to 32 bits |
| TunnelState.VanishesIff | electron-main/reverse-tunnel.js:103-305 | a forwarded request stays open with its timer, or is answered, or vanishes unanswered; and it vanishes if and only if a stop finds its tunnel gone or its own tunnel sends a status or headers that `writeHead` refuses |
| TunnelState.VanishedForGood | electron-main/reverse-tunnel.js:103-305 | a request that vanished is never answered, whatever follows |
| TunnelState.StatusRefusedIff | electron-main/reverse-tunnel.js:174-181 | with legal headers a status is refused if and only if it is 1000 or more, as far as 32 bits reach |
| TunnelState.UnsendableResponseRun | electron-main/reverse-tunnel.js:173-182 | a run in which a tunnel answers with status 1000 and the request is lost |
| TunnelState.StopAnswersIff | electron-main/reverse-tunnel.js:570-577 | a stop answers a pending request if and only if its tunnel is live |
| TunnelState.MuteRequest | electron-main/reverse-tunnel.js:268-293 | a request whose tunnel goes while its body is read is dropped without answer by a stop |
| TunnelState.MuteRequestRun | electron-main/reverse-tunnel.js:268-293 | a run from the start in which that happens |
| ReverseTunnel.Coordinator.FailPendingRequestsForSession | electron-main/reverse-tunnel.js:110-118 | the loop drops and answers exactly the requests waiting on the tunnel |
| ReverseTunnel.Coordinator.CleanupPendingRequest | electron-main/reverse-tunnel.js:103-108 | entry and timer go together |
| ReverseTunnel.Coordinator.DestroySession | electron-main/reverse-tunnel.js:120-162 | the method destroys as specified |
| ReverseTunnel.Coordinator.OnConnection | electron-main/reverse-tunnel.js:310-351 | the handler connects as specified and keeps the invariants |
| ReverseTunnel.Coordinator.OnGone | electron-main/reverse-tunnel.js:361-362 | the close and error handlers keep the invariants |
| ReverseTunnel.Coordinator.Stop | electron-main/reverse-tunnel.js:570-586 | the nested loops close every session and empty both maps and the pending requests |
| ReverseTunnel.Coordinator.OnHttpRequest | electron-main/reverse-tunnel.js:247-268 | the checks before the body is awaited |
| ReverseTunnel.Coordinator.OnBody | electron-main/reverse-tunnel.js:280-304 | the request is registered with its timer after the body is read |
| ReverseTunnel.Coordinator.OnResponse | electron-main/reverse-tunnel.js:169-183 | the entry and its timer are removed before the reply is sent, on a response object not yet answered; if `writeHead` throws nothing is sent |
| ReverseTunnel.Coordinator.OnTimeout | electron-main/reverse-tunnel.js:283-292 | the same for the timeout |
| AttestationState.AcceptsSound | electron-main/attestation.js:554-716 | over every interleaving each accept is for a challenge issued to that miner and checked before it ran out, two accepts of one challenge differ in the rounded measured operations, and levels stay between 0 and 10 |
| AttestationHistory.AcceptsFounded | electron-main/attestation.js:466-716 | every accept rests on a challenge issued to its miner, its last measurement, at least the minimum, a submission with signature and seed within two minutes, and a verdict with identity and jitter in order |
| AttestationHistory.FirstSubmissionDecided | electron-main/attestation.js:554-716 | conversely the first such submission is accepted if identity, jitter and measurement are in order, and rejected otherwise |
| AttestationHistory.WaitsIff | electron-main/attestation.js:554-647 | a submission gets past the checks if and only if it names an active challenge of its miner that has not run out, with signature, seed and measurement |
| AttestationHistory.VerdictIff | electron-main/attestation.js:649-706 | a verdict accepts if and only if identity and jitter are in order, the measurement is at least the minimum, and the replay cache does not hold it; either way it uses up the challenge |
| AttestationHistory.ActiveIff | electron-main/attestation.js:326-706 | which challenges are active after each event |
| AttestationHistory.ReplayKeyIff | electron-main/attestation.js:326-336 | a replay key is added by a verdict and kept for twelve hours |
| AttestationHistory.RecordFollowsVerdict | electron-main/attestation.js:504-522 | an accept lifts the record of its miner by one level up to ten, a rejection takes it down by one to zero, with streaks and counts; nothing else touches it |
| AttestationHistory.RecordsCountAccepts | electron-main/attestation.js:692-706 | in every run a miner's record counts its accepts |
| AttestationState.AcceptedOnceInTurn | electron-main/attestation.js:554-716 | if each submission resumes before the next one starts, as happens in the program, no challenge is accepted twice, whatever is measured |
| AttestationState.BothAcceptedIff | electron-main/attestation.js:636-706 | of two overlapping submissions of one challenge that each pass on their own, both are accepted if and only if their rounded measurements differ |
| AttestationState.AlwaysKept | electron-main/attestation.js:326-716 | the invariants behind it hold in every possible run |
| AttestationState.CleanupKeeps | electron-main/attestation.js:326-343 | cleaning up never drops a replay key that a waiting submission could repeat |
| AttestationState.AcceptKeeps | electron-main/attestation.js:669-706 | an accept consumes the challenge and guards against the waiting submissions of it |
| AttestationState.SubmitKeeps | electron-main/attestation.js:554-649 | the checks before the `await` keep the invariants |
| AttestationState.IssueKeeps | electron-main/attestation.js:466-502 | issuing a fresh challenge keeps them |
| AttestationState.RejectKeeps | electron-main/attestation.js:504-522 | a rejection keeps them, levels included |
| AttestationState.RemeasuredAcceptedTwice | electron-main/attestation.js:636-682 | a run with overlapping submissions, measured anew between them, in which a challenge is accepted twice |
| AttestationState.EvictedAcceptedTwice | electron-main/attestation.js:326-336 | a run in which a submission outlasts the replay window and repeats an accept |
| Attestation.Attestor.CleanupReplayCache | electron-main/attestation.js:326-336 | the loop drops exactly the keys older than the replay window |
| Attestation.Attestor.CleanupExpiredChallenges | electron-main/attestation.js:338-343 | the loop drops exactly the challenges that have run out |
| Attestation.Attestor.IssueBenchmarkChallenge | electron-main/attestation.js:466-502 | both clean-ups, then the challenge becomes active |
| Attestation.Attestor.RecordMeasurement | electron-main/benchmark-ipc.js:139-147 | the loop writes the measured speed on exactly the challenges of the local wallet |
| Attestation.Attestor.RejectAttestation | electron-main/attestation.js:504-522 | the record steps down and its streaks are updated |
| Attestation.Attestor.BeginSubmission | electron-main/attestation.js:554-647 | the checks up to the `await` as specified |
| Attestation.Attestor.FinishSubmission | electron-main/attestation.js:649-716 | the verdict after it as specified; accepted if and only if nothing failed and the key is new |
| LineFramer.ChunkingIrrelevant | electron-main/gpu-load-controller.js:199-253 | fed in any chunks, what is handled are the non-blank lines of the whole stream in order, and what is kept is its unterminated tail |
| LineFramer.TextsAreHandled | electron-main/gpu-load-controller.js:234-249 | what is handled are the trimmed texts of exactly the lines that are not blank, in order |
| LineFramer.LinesRebuild | electron-main/gpu-load-controller.js:234-253 | lines and tail are a cutting of the stream at exactly its newlines |
| LineFramer.LinesAppend | electron-main/gpu-load-controller.js:199-202 | only the unterminated tail matters to what comes next |
| LineFramer.ScanLines | electron-main/gpu-load-controller.js:234-249 | the scanning loop finds the lines and the start of the tail |
| LineFramer.Framer.OnData | electron-main/gpu-load-controller.js:199-202 | one chunk is framed as specified |
| CommandQueue.AnswersMatchCalls | electron-main/gpu-load-controller.js:420-462 | without timeout or exit commands are written in call order, one is in flight at a time, and the k-th answer that finds a command in flight resolves the k-th call |
| CommandQueue.AlwaysKept | electron-main/gpu-load-controller.js:210-229 | in every run, with timeouts, stray answers, failures and an exit, commands are written in call order, at most one is in flight, and what waits is unsettled |
| CommandQueue.SettledOnce | electron-main/gpu-load-controller.js:420-462 | a promise once settled is never settled again |
| CommandQueue.SettledIff | electron-main/gpu-load-controller.js:210-462 | an event settles exactly the new call on a device that does not run, the one in flight by an answer or exit, and the one whose timeout fires |
| CommandQueue.WrittenNext | electron-main/gpu-load-controller.js:420-462 | a call is written at once if nothing is in flight, else when it is first in the queue and the one in flight is answered or fails with the process |
| CommandQueue.InFlightNext | electron-main/gpu-load-controller.js:420-462 | what is written is in flight until it is answered, timed out, or the process exits |
| CommandQueue.LostIff | electron-main/gpu-load-controller.js:454-459 | a call is lost if and only if it waits in the queue while a timeout fires |
| CommandQueue.LostForGood | electron-main/gpu-load-controller.js:454-459 | the promise of a lost call never settles |
| CommandQueue.ExitStrandsQueue | electron-main/gpu-load-controller.js:210-223 | an exit leaves the next command to its timeout, which loses all others |
| CommandQueue.ExitRun | electron-main/gpu-load-controller.js:210-223 | a run in which an exit after several calls loses all but the first two |
| CommandQueue.GpuDevice.Send | electron-main/gpu-load-controller.js:420-436 | a call is rejected, queued or written as specified |
| CommandQueue.GpuDevice.ResolvePending | electron-main/gpu-load-controller.js:441-453 | an answer settles the call in flight and sends the next one |
| CommandQueue.GpuDevice.HandleTimeout | electron-main/gpu-load-controller.js:454-459 | a timeout rejects its call and drops the queue |
| CommandQueue.GpuDevice.HandleExit | electron-main/gpu-load-controller.js:217-221 | an exit fails the call in flight and unregisters the process |
| CommandQueue.GpuDevice.HandleError | electron-main/gpu-load-controller.js:225-229 | a failure unregisters the process and leaves the call in flight |
| Stun.AddressComesBack | electron-main/stun-client.js:34-78 | for every attribute list with exactly one IPv4 XOR-MAPPED-ADDRESS, wherever it stands, with any padding and trailing bytes, the parser returns its address and port |
| Stun.WhatIsParsed | electron-main/stun-client.js:34-87 | of any response the last address of each kind that is long enough is found, nothing for another family than IPv4, and the plain one stands in for a missing other; whatever other attributes, padding, unfinished attribute or bytes after it there are |
| Stun.SampleMessage | electron-main/stun-client.js:34-78 | a response with a text attribute of five bytes before or after the address is parsed to it, byte for byte |
| Stun.PlainAddressComesBack | electron-main/stun-client.js:64-87 | with only an attribute of type 0x0004 that address is returned |
| Stun.OthersNotFound | electron-main/stun-client.js:10-60 | attributes of other types yield no address, the standard type 0x0001 of MAPPED-ADDRESS included |
| Stun.NotAResponseIff | electron-main/stun-client.js:35-40 | what is shorter than 20 bytes, no binding response, or without the cookie is not parsed |
| Stun.ParseEncoded | electron-main/stun-client.js:34-65 | parsing an encoded message gives what its attributes mean one after the other |
| Stun.LastXorWins | electron-main/stun-client.js:55-57 | the last XOR-MAPPED-ADDRESS of at least eight bytes replaces earlier ones, also with nothing |
| Stun.DeclaredLengthSuffices | electron-main/stun-client.js:44-62 | a message as long as it declares is never read past its end |
| Stun.RangeErrorIff | electron-main/stun-client.js:34-65 | reading a response runs past its end if and only if more bytes could change what is parsed |
| Stun.CutIff | electron-main/stun-client.js:44-78 | an encoded response cut short makes the parser run past its end if and only if the cut takes a header that is read, or the family or value of an address |
| Stun.ParseStunResponse | electron-main/stun-client.js:34-65 | the loop over the offset, with the variables it overwrites, parses as specified and terminates on every message |
| Stun.XorCancels | electron-main/stun-client.js:70-76 | exclusive or with the cookie undoes itself |
| Stun.XorParts | electron-main/stun-client.js:70-76 | the exclusive or is that of each bit |
| PeerPreference.DiscoveryIsHeadOfSorted | electron-main/local-subnet-discovery.js:54-82 | folding the preference over the URLs gives the head of any stable sort of the distinct trimmed URLs, also when the comparison holds distinct URLs for equal |
| PeerPreference.SortedListHasHead | electron-main/local-subnet-discovery.js:67-74 | every list of URLs has a stable sort, and the selected URL is its head |
| PeerPreference.SelectDiscoveryPeerUrl | electron-main/local-subnet-discovery.js:76-82 | the loop computes the fold |
| PeerPreference.SelectedIsBest | electron-main/local-subnet-discovery.js:54-82 | the selected URL is one of the list with the highest score, and by name not after any other of that score; it is empty if and only if all are blank |
| Text.TrimOf | electron-main/round-ledger.js:468 | trimming takes off the white space around a text, all of it and nothing else; every address, hash, URL and line passes through it |
| JsObject.PutKeys | electron-main/round-ledger.js:284 | assigning keeps the place of a key and puts a new one last |

## Left out

- Sockets, HTTP, WebSockets, IPC, timers as such, logging and telemetry: only the state changes they cause are modelled.
- Floating-point error, and the effect of `toFixed` on amounts beyond the exact range of a double.
- Loading, saving and recovering the ledger file, and its signature: runs start from the default ledger.
- Wall-clock fields of rounds (`startedAtMs`, `foundAtMs`, `archivedAtMs`, `maturedAtMs`) and the copy of the contributions in a settled record: no operation reads them.
- Results for calls that are malformed in type (`NaN`, missing objects): arguments have the types the program normalises them to.
- Failed writes of the lock file, and file entries that are not numbers; the file is a map.
- Escalation of rate-limit hits to identity failures, and the operations counters of peer requests.
- Seed strings are decoded by a parameter; burn times, duty control and statistics of the CPU worker.
- Relayed worker connections, ping timers and peer-directory updates of a tunnel session; the client side of the tunnel.
- A cap on pending tunnel requests over interleavings: the size is checked before an `await`, so the code does not keep one.
- LineFramer.Framer.OnData: the texts of a chunk are recorded after the scan instead of handled during it; a handler cannot touch the buffer.
- Normalisation of miner names, hardware profiles and reattestation scheduling; the saved replay cache.
- Subnet enumeration of local-subnet-discovery.js and the score of a URL, which is a parameter.
- Power curves, calibration, trust heuristics, consensus, chain and accounts.
