# PyGrove consensus core in Dafny

This project models the part of PyGrove that decides which blocks a node
accepts and what accepting them does, and proves what that part promises, over
every input, every block and every run.

- **Difficulty**: compact target bits (`Compact`), the per-block ASERT step
  (`Asert`), what its half-lives do (`HalfLife`) and the multi-limb
  Bitcoin-style retarget (`Retarget`).
- **Emission**: the halving calendar and the slew-limited block reward
  (`Emission`), and what they pay in terms of the parameters (`Payout`).
- **Ledger**: typed state records (`State`), governance proofs (`Governance`)
  and block application (`Ledger`); what a block admits (`Admission`), whom it
  pays (`Settlement`) and what it leaves on record (`Records`); its run-level
  laws in `Conservation`, `Replay`, `Spending`, `Transfers`, `Atomicity`,
  `Authority`, `Binding` and `Rotation`.
- **Node**: block acceptance, restart replay and the emission chart (`Node`,
  `NodeState`), exactly which blocks are accepted (`Acceptance`) and which the
  chart shows (`Chart`), the supply bound that joins ledger and emission
  (`Supply`), when a restart rebuilds the live state (`Restart`), what a tip hash
  commits to (`History`, `Convergence`) and what it leaves open (`Omission`).
- **Finality certificates** (`Finality`, `Certificates`), **canonical encodings**
  (`Encoding`, and byte by byte in `Layout`), **stores** (`Stores`), **block log**
  (`ChainStore`), **mempool** (`Mempool`).

`Machine`, `Bytes`, `Order` and `Types` hold machine integers, byte strings,
sorting and the shared records. Code that updates state in the source is a
class or a method here, proved against a specification function; the laws are
lemmas about those functions. Machine widths are subset types, so an overflow
would not verify; saturating, truncating and wrapping operators are written
out. Hashes, signature checks, address derivation and the CBOR codec are
function parameters, so the laws hold for any of them. Three assumptions are
made about them, each where it is stated: `ChainStore` takes a block codec that
round-trips, `History`, `Convergence` and `Binding` take a hash without
collisions among the preimages they name, and `Binding` a signature that holds
for at most one of two named messages under one key.

`dafny verify dfyconfig.toml` checks the whole project.

## Where the code and its documentation differ

The model follows the code. Where a law is affected, the member named pins the
difference down.

- `apply_block` documents that a failure leaves the store unchanged
  (`crates/state/src/apply.rs:416-418`). It does not: pass 2 and the effects
  write before later checks. `RejectedBlockWritesIff` says exactly for which
  blocks, in terms of the store before the call: a valid block that repeats a
  sender or asks for an effect that is refused. `RepeatedTransferWrites` and
  `DisallowedUpgradeWrites` give inputs. A restart then no longer rebuilds the
  live state, and never will again (`RestartAfterRun`), and an announcement made
  by such a block can still activate in the live state (`BlockAnnouncesUpTo`).
- A reward is documented never to exceed what the calendar owes, the era's
  nominal reward, or that reward's share of the time since the parent
  (`crates/consensus/src/emission.rs:103-117`), nor the bootstrap share
  (`crates/consensus/src/emission.rs:138-144`). The lower slew clamp runs last
  and overrides them all: `RewardExceedsCapsIff` gives the condition for each.
  `OverpaymentHappens` and `TimeShareIsOverridden` show a run from the genesis
  block that exceeds the calendar and the share of time, `HalvingOverridesCaps`
  two blocks across the first halving that exceed the era cap and, in the
  bootstrap phase, its share. `EmissionBound` is the bound that does hold.
- Encoding is documented to round-trip for any bits it produces
  (`crates/consensus/src/pow.rs:42-43`). From a target of 2^255 up the exponent
  becomes 33, which decodes to zero
  (`ReencodeIsIdentityBelowLimit`, `CanonicalBitsRoundTrip`).
- Importing into the persistent store is documented to reproduce the source's
  root (`crates/state/src/rocks_store.rs:92-94`). It does exactly when every key
  already there is also imported (`ImportKeepsRootIff`).
- Nonces saturate, so at 2^64-1 a free transfer can be repeated within a block
  (`SaturatedNonceReplays`); below that nothing is applied twice.
- The mempool's comment speaks of fee per byte
  (`crates/node/src/mempool.rs:5-7`); selection uses the plain fee (`Outranks`).
  A pool of capacity zero still holds one entry.
- `signer_count` counts bitmap bits beyond the committee
  (`SignerCountIncludesPadding`), so two valid keys can meet a quorum of five
  (`PaddingReachesQuorum`).
- On-schedule blocks are documented to keep their target
  (`crates/consensus/src/asert.rs:24-26`). They do exactly while the high half is
  in [1, 2^112): an empty one panics, and from 2^112 up the saturating product
  shrinks it (`OnScheduleKeepsTargetIff`).
- The power of two is documented as a cubic approximation good to one unit
  (`crates/consensus/src/asert.rs:30-31`); the code is linear, and at one
  half-life its factor is 1.693 up and 0.307 down (`MultiplierAtHalfLife`).
- The block log silently drops a torn length field, while a torn body makes
  the whole log unreadable (`LogRoundTrip`).
- The chart's fold skips the first block's reward. It matches the node's minted
  total whenever that reward is zero, as it is for a genesis block at genesis
  time, and for a one-block log only then (`SeriesAgreesWithReplay`).
- `genesis.rs` says `init` commits the committee
  (`crates/node/src/genesis.rs:84-86`); it is `run` that does, before replaying.
- An inline key is checked to derive to the sender, but not to carry the
  algorithm the account has on record; only a witness naming a known key is held
  to it (`OtherAlgorithmsSignInline`, `InlineIgnoresRecordedAlgorithm`).
- The body hash is documented to include every field
  (`crates/core/src/tx.rs:329-330`). It leaves out governance proofs and the
  order in which coordinators are listed (`SameTx`), so a header commits to
  neither: a governed block and the same block without one proof pass the same
  header checks and fare differently (`HeaderLeavesProofsOpen`).

## Model

| member | source | states |
|---|---|---|
| Compact.TargetFromBits | crates/consensus/src/pow.rs:16-39 | the 32 bytes written for compact bits spell the number those bits denote, zero when the exponent is out of range |
| Compact.BitsFromTarget | crates/consensus/src/pow.rs:44-65 | the byte loop returns the encoding of the number its 32 bytes spell |
| Compact.MeetsTarget | crates/consensus/src/pow.rs:97-107 | the early-exit byte comparison decides numeric order of hash and target |
| Compact.CompactIsBestLowerApproximation | crates/consensus/src/pow.rs:16-65 | below 2^255 decoding an encoding gives the greatest representable target not above the original, losing less than one part in 2^15 |
| Compact.EncodeMonotone | crates/consensus/src/pow.rs:44-65 | a larger target never encodes to smaller bits |
| Compact.ReencodeIsIdentityBelowLimit | crates/consensus/src/pow.rs:16-65 | encode after decode after encode is encode if and only if the target is below 2^255 |
| Compact.CanonicalBitsRoundTrip | crates/consensus/src/pow.rs:16-65 | bits survive decoding and re-encoding if and only if they are canonical |
| Compact.DecodedTargetsAreExact | crates/consensus/src/pow.rs:16-65 | a target that came from bits is re-encoded without loss |
| Asert.ClampPanicsOnlyOnEmptyHighHalf | crates/consensus/src/asert.rs:126-169 | the step fails exactly when the clamp bounds are crossed, which happens only when the high half is zero |
| Asert.NextBitsInRange | crates/consensus/src/asert.rs:94-169 | one step from a high half in [1, 2^112) succeeds, keeps it in that range and the exponent within 32, raises it by at most 8%, and loses at most 2^-15 below the clamp's floor |
| Asert.ChainStaysInRange | crates/consensus/src/asert.rs:94-169 | every chain of such steps stays in range, with growth compounding to at most (108/100)^n |
| Asert.LaterNeverHarder | crates/consensus/src/asert.rs:94-169 | through the whole decode, scale, clamp, encode path a later timestamp never gives smaller bits or a smaller target |
| Asert.ResponseFollowsSchedule | crates/consensus/src/asert.rs:64-72 | an on-schedule block leaves canonical bits unchanged, a late one never hardens them, an early one never eases them |
| Asert.OnScheduleKeepsTargetIff | crates/consensus/src/asert.rs:126-169 | an on-schedule step keeps the target if and only if the high half is in [1, 2^112) |
| Asert.ShorterTauReactsMore | crates/consensus/src/asert.rs:126-169 | with a shorter half-life the same lag moves the bits at least as far the same way |
| Asert.HalfLifeHitsTheClamp | crates/consensus/src/asert.rs:126-169 | a block early or late by a half-life or more moves the high half by exactly the 8% the clamp allows, short of the top of the range |
| Asert.MultiplierAtHalfLife | crates/consensus/src/asert.rs:64-72 | at one half-life the factor is 1 plus or minus the Q16 logarithm, not 2 or one half |
| HalfLife.HalfLifeByHeight | crates/consensus/src/asert.rs:104-109 | below the bootstrap height the step is taken with the bootstrap half-life, from it on with the regular one, for the lag of the timestamps |
| HalfLife.EncodedStepOf | crates/consensus/src/asert.rs:110-119 | the step demands the encoding of the stepped target, and panics where there is none |
| HalfLife.BootstrapReactsMore | crates/consensus/src/asert.rs:78-119 | with the shorter half-life in the bootstrap phase, the same lag moves the bits at least as far at every height before the boundary as at any past it |
| HalfLife.FactorOf | crates/consensus/src/asert.rs:64-72 | the factor is one plus ln 2 times the lag in half-lives, each rounding pinned by inequalities, for every lag between 64-bit times |
| HalfLife.StepScalesHighHalf | crates/consensus/src/asert.rs:145-168 | the new high half is the greatest number within the scaled one and 108/100 of the old, or within 100/108 of it, or one; the low half is carried over |
| HalfLife.NoHalfLife | crates/consensus/src/asert.rs:135-137 | a half-life of zero and a wrapping height pass the target through |
| HalfLife.OneMinuteLate | crates/consensus/src/asert.rs:94-169 | under the genesis schedule a block one minute late turns 0x1e00ffff into 0x1e0102f2 in the bootstrap phase and into 0x1e01000d later |
| Retarget.MulU256U64 | crates/consensus/src/retarget.rs:38-56 | the five result limbs spell the exact product, with no carry lost and no u128 overflow |
| Retarget.DivU320U64 | crates/consensus/src/retarget.rs:58-68 | limb-wise long division gives the exact quotient and remainder |
| Retarget.BitcoinRetarget | crates/consensus/src/retarget.rs:8-36 | the result is min(2^256-1, floor(old * clamped / expected)), or the old target when nothing is expected |
| Retarget.RetargetMonotone | crates/consensus/src/retarget.rs:8-36 | a larger old target or a longer actual time never gives a smaller new target |
| Retarget.RetargetBounds | crates/consensus/src/retarget.rs:8-36 | at most four times the old target, and the old target itself when the time is as expected |
| Retarget.RetargetIsProportional | crates/consensus/src/retarget.rs:8-36 | the new target is the greatest 256-bit number that is to the old one at most as the timespan, held between a quarter and four times the expected one, is to that |
| Emission.ScheduledSupplyAt | crates/consensus/src/emission.rs:71-101 | the halving loop computes the calendar: whole epochs, the partial epoch, the cap |
| Emission.ScheduleMonotone | crates/consensus/src/emission.rs:71-101 | the calendar never falls in time, for all parameters, across epochs and across the jump at epoch 64, and never exceeds the cap |
| Emission.ScheduleBelowFullRate | crates/consensus/src/emission.rs:71-101 | before epoch 64 the calendar pays at most one initial reward per target interval elapsed |
| Emission.CapNeverBinds | crates/consensus/src/emission.rs:71-101 | when twice the first epoch fits under the cap, the cap never binds before epoch 64 |
| Emission.SchedulePaysWholeBlocks | crates/consensus/src/emission.rs:71-101 | for all parameters: in epoch n the calendar has paid exactly k of that epoch's rewards on top of the full epochs before, up to the cap, while the elapsed share of the epoch lies between k and k+1 blocks |
| Emission.ScheduleKeepsTime | crates/consensus/src/emission.rs:71-101 | where the target interval divides the halving period, that is one reward per target interval |
| Emission.CurrentRewardWithHeight | crates/consensus/src/emission.rs:151-201 | the branching reward code computes the specified reward |
| Emission.RewardExceedsCapsIff | crates/consensus/src/emission.rs:151-201 | a reward exceeds what the calendar owes, the era's reward, its share of the time since the parent, or the bootstrap share, if and only if the lower slew limit does |
| Emission.RewardExceedsCalendarIff | crates/consensus/src/emission.rs:151-201 | the calendar's case, for any timestamp |
| Emission.OverpaymentHappens | crates/consensus/src/emission.rs:191-198 | a run of four blocks from genesis that mints 57.8125 coins when the calendar owes 50 |
| Emission.TimeShareIsOverridden | crates/consensus/src/emission.rs:191-198 | in that run a block one millisecond after its parent earns 18.75 coins where its share of the time is 8333 satoshi |
| Emission.HalvingOverridesCaps | crates/consensus/src/emission.rs:191-198 | two blocks across the first halving, at any height: the second earns three quarters of the first, above the era's reward and above the bootstrap share |
| Emission.CalendarIsPaidIff | crates/consensus/src/emission.rs:118-141 | past bootstrap a block catches up with the calendar completely if and only if what is owed fits the epoch reward and its saturating share of the time since the parent |
| Emission.RewardMovesWithinBand | crates/consensus/src/emission.rs:171-198 | after a paid block the reward moves by at most the slew percentage either way; otherwise a stall earns at most the initial reward per target interval since the parent |
| Emission.PayKeepsBound | crates/consensus/src/emission.rs:151-201 | each block keeps the emission potential below its calendar line, and its reward at most the initial one |
| Emission.EmissionBound | crates/consensus/src/emission.rs:151-201 | over every time-ordered run, with slew percent q, q*minted + (100-q)*last stays at most q*calendar + (100-q)*initial reward |
| Emission.DefaultSlewBound | crates/consensus/src/emission.rs:151-201 | with the default 25% limit minted supply is within three initial rewards of the calendar, hence of the cap |
| Emission.FullSlewIsExact | crates/consensus/src/emission.rs:151-201 | with a 100% limit minted supply never exceeds the calendar |
| Emission.CalendarRewardsTrackSchedule | crates/consensus/src/emission.rs:118-141 | without a previous reward minted supply never exceeds the calendar |
| Emission.BootstrapRewardsCapped | crates/consensus/src/emission.rs:174-190 | over every run the blocks below the bootstrap height earn at most their percentage of the initial reward |
| Payout.HalvedIsShifted | crates/consensus/src/emission.rs:71-101 | n halvings are a shift by n bits: the quotient by 2^n rounded down |
| Payout.EpochRewardIsShifted | crates/consensus/src/emission.rs:161-167 | in the n-th period after genesis the nominal reward is the initial one divided by 2^n, and nothing from the 64th on |
| Payout.CalendarWithinPeriod | crates/consensus/src/emission.rs:71-101 | within a period the calendar pays that period's reward for every whole block the elapsed share of it holds, on top of what it had paid at the start, up to the cap |
| Payout.CalendarOverPeriod | crates/consensus/src/emission.rs:71-101 | a whole period pays its reward once per target interval in it |
| Payout.CalendarEnds | crates/consensus/src/emission.rs:71-101 | nothing is owed at genesis or without halvings or blocks, and the whole cap after 64 periods |
| Payout.RewardIsGreatestAllowed | crates/consensus/src/emission.rs:159-190 | with no paid block before it, a block earns the greatest amount that the calendar, the period, the time since the parent and the bootstrap percentage all allow |
| Payout.CurrentRewardIsGreatest | crates/consensus/src/emission.rs:118-133 | without a height the reward is the same, the bootstrap percentage aside |
| Payout.RewardStaysInBand | crates/consensus/src/emission.rs:191-198 | after a paid block the reward is the free one where that lies within the slew percentage of the last, and otherwise, to the satoshi, the end of the band it lies beyond, upwards and downwards |
| Payout.NothingBeforeGenesis | crates/consensus/src/emission.rs:159-162 | a block at or before genesis time earns nothing |
| Payout.RewardsClimbBack | crates/consensus/src/emission.rs:184-198 | on-schedule blocks across the bootstrap height earn 25, 31.25, 39.0625, 48.828125 and 50 coins |
| Emission.NodeParametersAreAffordable | crates/node/src/main.rs:148-159 | the parameters a node builds from its genesis file leave 128-bit totals room for every reward |
| Emission.MintingNeverSaturates | crates/node/src/rpc.rs:1079-1082 | with such parameters adding a reward to the minted total never saturates |
| Ledger.StageAll | crates/state/src/apply.rs:431-446 | pass 1 stages every transaction against the pre-block state or returns the first error |
| Ledger.ApplyStagedInPlace | crates/state/src/apply.rs:450-485 | one transfer re-checks nonce and balance, debits, commits the first key, then credits |
| Ledger.ApplyAllInPlace | crates/state/src/apply.rs:450-485 | pass 2 runs the staged transfers in order up to the first that fails, keeping what was written |
| Ledger.EffectInPlace | crates/state/src/apply.rs:490-711 | one transaction's write outside the accounts, or its error with nothing written |
| Ledger.EffectsInPlace | crates/state/src/apply.rs:490-711 | the effects run in order up to the first that is refused, keeping what was written |
| Ledger.FinishInPlace | crates/state/src/apply.rs:718-796 | coinbase, reflection records and suite activation |
| Ledger.ApplyBlock | crates/state/src/apply.rs:423-803 | the in-place run of all passes leaves exactly the specified state and outcome, partial writes on failure included |
| Settlement.AcceptedBlockSettles | crates/state/src/apply.rs:450-727 | in an accepted block every account gains what transfers to it carry, loses what its transactions send and pay in fees, and the account in the first 20 bytes of the coinbase field gets reward and fees on top |
| Settlement.AcceptedBlockReports | crates/state/src/apply.rs:797-803 | the output counts the transactions, their fees, reward plus fees, and the root of the state left behind |
| Settlement.SendersCommit | crates/state/src/apply.rs:450-485 | below the nonce limit each sender's nonce moves from its transaction's to the next, and an account without a key commits the one its witness carries |
| Settlement.OthersKeepNonceAndKey | crates/state/src/apply.rs:450-485 | an account that sends nothing keeps nonce and key, whatever the outcome |
| Admission.ValidatedIffAdmissible | crates/state/src/apply.rs:431-446 | validation passes if and only if every transaction is committed to its witness, signed under a key of its sender, at its nonce, covered by its balance and no contract call |
| Admission.FirstDefectIsReported | crates/state/src/apply.rs:431-446 | a block refused in validation is refused for the first inadmissible transaction, with an error that names its defect and numbers |
| Admission.EffectGoesThroughIff | crates/state/src/apply.rs:490-711 | an effect goes through if and only if its sender is a registered coordinator where any is, its cage code is digits and capitals, its suites are allowed, its configuration is sound and its proof meets the one in force |
| Admission.EffectErrorNamesDefect | crates/state/src/apply.rs:490-711 | a refused effect writes nothing, and its error names the condition it broke |
| Records.AcceptedAttestationsAreRegistered | crates/state/src/apply.rs:490-600 | every attestation in an accepted block comes from a coordinator registered at that point of the block, where any is; contract calls never get in |
| Records.LastFiledIsRecorded | crates/state/src/apply.rs:490-711 | what the last transaction filed under a key wrote is what an accepted block leaves there, with sender, height and time |
| Records.FiledAsRound | crates/state/src/apply.rs:522-528 | only an attestation of that job and round is filed under its key |
| Records.FiledAsLot | crates/state/src/apply.rs:312-321 | only a pedigree of that job and lot is filed under its key |
| Records.FiledInMeta | crates/state/src/apply.rs:331-340 | coordinators, announcements and configurations are filed each under their own key, and none as the active suite |
| Records.UnfiledStays | crates/state/src/apply.rs:490-711 | under every other key an accepted block changes nothing |
| Records.ReflectionIsRecorded | crates/state/src/apply.rs:753-770 | an accepted block leaves its reflection record under its height and as the latest: bits, distinct senders, fees, reward plus fees |
| Records.SuiteActivates | crates/state/src/apply.rs:781-796 | a suite becomes active exactly in the block whose height was announced |
| Conservation.BlockConservesSupply | crates/state/src/apply.rs:450-727 | an accepted block raises the sum of all balances by exactly its reward; a rejected one never raises it |
| Conservation.CoinbaseNeverOverflows | crates/state/src/apply.rs:719-727 | when all balances plus the reward fit 128 bits, no block fails with a coinbase overflow |
| Replay.AcceptedBlockNonces | crates/state/src/apply.rs:450-479 | below the nonce limit an accepted block has one transaction per sender, at its current nonce, and moves that nonce by exactly one |
| Replay.NoTransactionTwice | crates/state/src/apply.rs:881-891 | over every run of accepted and rejected blocks, two transactions of accepted ones share sender and nonce only at the largest nonce |
| Replay.SaturatedNonceReplays | crates/state/src/apply.rs:473 | at nonce 2^64-1 any accepted free transfer is also accepted twice in one block |
| Replay.BlockKeepsKeys | crates/state/src/apply.rs:474-478 | whatever a block's outcome, stored keys keep deriving to their accounts and never change |
| Spending.BlockTakesWhatWasSigned | crates/state/src/apply.rs:841-870 | whatever its outcome, a block takes from an account at most the amounts and fees signed under that account's key in it |
| Spending.CoinsMoveOnlyBySignature | crates/state/src/apply.rs:423-803 | over every run of accepted and rejected blocks an account loses at most what was signed under its own key, counted once per block that includes it |
| Spending.EachNonceIsChargedOnce | crates/state/src/apply.rs:450-485 | over every run of accepted and rejected blocks an account that signs away nothing at the largest nonce loses at most one signed cost, the largest, for each nonce it moves through |
| Spending.OtherAlgorithmsSignInline | crates/state/src/apply.rs:844-872 | a validated transaction under another algorithm than the one on record carries its key inline |
| Spending.InlineIgnoresRecordedAlgorithm | crates/state/src/apply.rs:844-872 | the verdict on a transaction with an inline key does not depend on the recorded algorithm |
| Transfers.TransferBlockIsAtomic | crates/state/src/apply.rs:431-485 | a transfer block with distinct senders and enough headroom succeeds exactly when pass 1 does, and otherwise leaves the store untouched |
| Atomicity.RejectedBlockWritesIff | crates/state/src/apply.rs:423-803 | for every block with nonces below the limit: it is rejected after writing if and only if it passes validation and repeats a sender or asks for an effect refused on the store before the call |
| Atomicity.OtherBlocksAreAtomic | crates/state/src/apply.rs:423-803 | every other block, nonces at the limit included, succeeds exactly when pass 1 does, and otherwise leaves the store untouched |
| Atomicity.LateFailuresWrite | crates/state/src/apply.rs:448-711 | a block that fails late leaves its first sender's nonce raised |
| Atomicity.TransfersFailLateIff | crates/state/src/apply.rs:431-485 | a transfer block fails late if and only if it passes validation and repeats a sender |
| Atomicity.RepeatedTransferWrites | crates/state/src/apply.rs:453-461 | any transfer accepted alone, put twice into one block, gets the block rejected after writing |
| Atomicity.DisallowedUpgradeWrites | crates/state/src/apply.rs:618-629 | any valid announcement of a suite outside the allowlist gets its block rejected after writing |
| Transfers.TransferOrderDoesNotMatter | crates/state/src/apply.rs:423-803 | reordering a transfer block with its witnesses changes neither verdict, nor output, nor store |
| Governance.Validate | crates/state/src/apply.rs:110-130 | a configuration is accepted exactly when its threshold is between one and its size and its ids are distinct, and which defect each error names |
| Governance.VerifyProof | crates/state/src/apply.rs:164-196 | the early-exit loop accepts exactly when enough distinct configured signers have a valid first signature, and otherwise reports how many had |
| Governance.AcceptanceIsThreshold | crates/state/src/apply.rs:164-196 | under a valid configuration acceptance is precisely having threshold many distinct configured approvers |
| Governance.ApproverIff | crates/state/src/apply.rs:164-200 | a configured signer approves if and only if the first signature under its id holds under its key and algorithm |
| Governance.FullThresholdNeedsAll | crates/state/src/apply.rs:164-200 | a threshold as large as the configuration is met only when every member approves |
| Governance.PayloadsIdentifyActions | crates/state/src/apply.rs:201-255 | the signed payloads of different governance actions never coincide, and equal ones mean the same action |
| Authority.EffectIsAuthorized | crates/state/src/apply.rs:631-707 | a governed call that goes through carried a proof meeting the configuration in force, and replaces it only with a valid one |
| Authority.BlockFollowsGovernance | crates/state/src/apply.rs:490-711 | the configuration a block leaves is the one its authorized prefix leads to, changes within the block included; an accepted block is authorized throughout |
| Authority.GovernanceNeverReverts | crates/state/src/apply.rs:664-707 | over every run of accepted and rejected blocks a configuration stays valid and never returns to bootstrap |
| Binding.WitnessServesOneTransaction | crates/core/src/tx.rs:317-327 | barring a collision of the two preimages and a signature that holds for both messages, a witness that validates two transactions under one key validates the same transaction twice |
| Binding.MajorityProofNamesOneAction | crates/state/src/apply.rs:164-255 | under a majority threshold and the same assumptions, a proof that gets two governed calls through got the same action through twice |
| Binding.StandardEnvIsStandard | crates/core/src/tx.rs:317-327 | the chain's own environment hashes exactly the canonical preimages |
| Rotation.RotationFollowsHistory | crates/state/src/apply.rs:772-796 | over every run of accepted blocks the pending and active suites are what the announcements in those blocks say |
| Rotation.BlockAnnouncesUpTo | crates/state/src/apply.rs:603-663 | whatever a block's outcome, what is announced after it is what its effects up to the first refused one announce; the active suite moves only with an accepted block |
| Rotation.ActivatedSuitesAreAllowed | crates/state/src/apply.rs:609-629 | over every run of accepted and rejected blocks every announced or active suite is on the build's allowlists |
| Rotation.StaleAnnouncementNeverActivates | crates/state/src/apply.rs:772-796 | an announcement whose target has passed never activates |
| State.RecordKeysAreApart | crates/state/src/apply.rs:312-341 | keys of different records never coincide, whatever the ids in them |
| State.TotalSave | crates/state/src/accounts.rs:36-43 | saving an account changes the sum of balances by exactly that account's change |
| State.SaveThenLoad | crates/state/src/accounts.rs:27-43 | a saved account loads back, and every other account is unchanged |
| State.UnknownAccountIsEmpty | crates/state/src/accounts.rs:12-43 | an account never saved has no coins, nonce zero and no key |
| Restart.RestartAgreement | crates/node/src/rpc.rs:954-1096 | an attempt on a node restarted from its log keeps the log well-formed, and below the nonce limit keeps live state and replay equal if and only if the block does not fail late after passing the header checks |
| Restart.RestartAfterRun | crates/node/src/main.rs:182-206 | over every run of accepted and rejected blocks below the nonce limit, a restart rebuilds exactly the live state if and only if no block failed late |
| Restart.CleanRunsRestart | crates/node/src/main.rs:182-206 | a run in which none fails late restarts exactly, nonces at the limit included |
| Restart.DivergenceLasts | crates/node/src/main.rs:182-206 | once the log replays to a smaller nonce, or not at all, no block brings it back into agreement |
| Node.SeriesAgreesWithReplay | crates/node/src/rpc.rs:654-677 | the chart's fold and the node's minted total agree when the first block earns nothing, as it does at or before genesis time |
| Node.RunKeepsToClock | crates/node/src/rpc.rs:955-1035 | over every run no block of the log is ahead of the latest clock by more than the tolerance, and before launch nothing changes |
| Node.RulesOf | crates/node/src/rpc.rs:30-72 | the ledger, reward and retarget of this chain, under any hashes, are rules the run-level laws apply to |
| Node.RetargetNeverPanics | crates/node/src/rpc.rs:990-1014 | on a well-formed log from an in-range first target no attempted block panics the retarget |
| NodeState.NodeState.CheckBlock | crates/node/src/rpc.rs:954-1055 | the header checks against the cached tip decide exactly the specified verdict, in the source's order |
| NodeState.NodeState.Advance | crates/node/src/rpc.rs:1057-1090 | past the header checks: reward, ledger, counters, pool and log move as one extension of the books, or the ledger's partial writes stay and nothing else moves |
| NodeState.NodeState.TryApplyBlock | crates/node/src/rpc.rs:954-1096 | one call is one step of the chain state machine; mempool and log change only on success, and how |
| Acceptance.NextBlockAcceptedIff | crates/node/src/rpc.rs:954-1096 | on a restarted node a block below the nonce limit is accepted if and only if clock, parent, height, bits, both time limits, work and roots are right, its transactions are admissible, no account sends twice and no effect is refused |
| Acceptance.FirstBlockAcceptedIff | crates/node/src/rpc.rs:954-1096 | the same for an empty log: parent of zeros, height zero, bits from the configured ones at height and time zero |
| Acceptance.RefusalNamesDefect | crates/node/src/rpc.rs:954-1055 | each reason for a refusal names what the header has wrong, or the ledger's error |
| Acceptance.AcceptedBlockIsPaid | crates/node/src/rpc.rs:1057-1090 | an accepted block joins the log and mints the emission rule's reward since its parent's time, or since genesis for the first; a refused one leaves log and totals alone |
| NodeState.IncludedLeavePool | crates/node/src/rpc.rs:1083-1090 | the pool loses exactly the entries under the body hashes of an accepted block's transactions |
| NodeState.ReplayLog | crates/node/src/main.rs:182-206 | the start-up loop computes the replay of the log |
| NodeState.RunningTotals | crates/node/src/rpc.rs:654-677 | the chart loop computes the fold's totals by height |
| NodeState.EmissionSeries | crates/node/src/rpc.rs:622-708 | windowing, striding and the final sample yield exactly the specified chart |
| Node.ChartShowsTheLog | crates/node/src/rpc.rs:622-708 | on contiguous heights every sample shows a block with the total up to it, and the last one shows the tip |
| Chart.ChartIsEvenlySpaced | crates/node/src/rpc.rs:622-700 | on an ordered log the chart starts at the first block no older than the window and shows every n-th block from there, n being the whole quotient of blocks by points held between 2 and 500, or one |
| NodeState.InstallGenesisGovernance | crates/node/src/main.rs:381-443 | a committee whose members all decode is installed whole and valid, or nothing is written |
| NodeState.SpelledIff | crates/node/src/main.rs:388-420 | a member becomes a signer if and only if its id is 32 bytes of hex and its key hex of its algorithm's size |
| NodeState.GenesisConfigIs | crates/node/src/main.rs:422-436 | the configuration holds the members in order, the epoch, and the given threshold or one as large as the committee |
| NodeState.OmittedThresholdMeansAll | crates/node/src/main.rs:422-430 | with an omitted threshold an accepted proof carries a valid signature of every member |
| NodeState.GenesisStateIsSound | crates/node/src/main.rs:171-180 | a fresh state holds no coins, no announcement and no active suite, and sound governance |
| Supply.AttemptKeepsBacking | crates/node/src/rpc.rs:1057-1082 | every attempted block, rejected after writing or not, keeps balances within the minted total and the minted total within the emission bound, and never overflows the coinbase |
| Supply.SupplyIsBacked | crates/node/src/rpc.rs:1057-1082 | the same over every run, with equality while no block fails late |
| Supply.ReplayIsBacked | crates/node/src/main.rs:182-206 | after a replay balances sum to exactly the minted total |
| Supply.SupplyCap | crates/node/src/main.rs:148-206 | from restart through any sequence of attempted blocks, all balances stay within the calendar plus three initial rewards under the default slew limit |
| History.HeaderBytesIdentifyHeaders | crates/consensus/src/pow.rs:69-84 | the header preimage fixes every header field |
| History.TipFixesHistory | crates/core/src/block.rs:37-48 | barring collisions, equal tip hashes mean equally long logs with the same headers, witnesses and transactions, proofs and coordinator order aside |
| Convergence.TipFixesReplay | crates/node/src/main.rs:182-206 | two logs with the same genesis block and tip hash, both replaying without error, leave the same totals and the same state up to coordinator order |
| Convergence.ApplySame | crates/state/src/apply.rs:423-803 | bodies that differ only in what no hash covers, accepted on equal states, leave equal states |
| Omission.HeaderLeavesProofsOpen | crates/core/src/tx.rs:228-344 | a block a configured node would accept, with one governance proof removed, passes the same header checks, is rejected after changing the store, and leaves the block itself rejected |
| Encoding.SigningHash | crates/core/src/tx.rs:317-327 | the hasher receives exactly the signing preimage |
| Encoding.BodyHash | crates/core/src/tx.rs:331-344 | the hasher receives exactly the body preimage |
| Encoding.WitnessHash | crates/core/src/tx.rs:203-223 | the hasher receives exactly the witness preimage |
| Encoding.HashCall | crates/core/src/tx.rs:228-311 | one call's bytes, with coordinators sorted first |
| Encoding.VecRoot | crates/core/src/tx.rs:349-360 | the hasher receives the tag, the count and the leaves |
| Encoding.CallBytesIdentifyCalls | crates/core/src/tx.rs:228-311 | two calls have equal bytes if and only if they are equal up to governance proofs and coordinator order, multiplicity kept |
| Encoding.SigningBytesIdentifyTransactions | crates/core/src/tx.rs:317-327 | equal signing preimages if and only if nonce, sender, fee and call agree in that sense |
| Encoding.BodyBytesIdentifyTransactions | crates/core/src/tx.rs:331-344 | the body preimage additionally fixes gas limit and witness hash |
| Encoding.WitnessBytesIdentifyWitnesses | crates/core/src/tx.rs:203-223 | the witness preimage fixes the witness |
| Encoding.RootBytesIdentifyLeaves | crates/core/src/tx.rs:349-360 | a root preimage fixes the list of leaves, its order and length |
| Encoding.DomainsAreDisjoint | crates/core/src/tx.rs:203-360 | preimages of different kinds never coincide |
| Layout.SigningLayout | crates/core/src/tx.rs:317-327 | byte by byte what is signed: tag, nonce, sender, call, fee, numbers low byte first |
| Layout.BodyLayout | crates/core/src/tx.rs:331-344 | byte by byte what identifies a transaction |
| Layout.WitnessLayout | crates/core/src/tx.rs:203-223 | byte by byte a witness |
| Layout.CallLayout | crates/core/src/tx.rs:228-311 | byte by byte each kind of call, coordinators in ascending order |
| Layout.RootLayout | crates/core/src/tx.rs:349-360 | a root preimage is its tag, the number of leaves and the leaves in order |
| Layout.BodyRootsLayout | crates/core/src/block.rs:37-48 | a header commits to the body hashes of its transactions under "PGtxroot" and to its witnesses' hashes under "PGwitroot", in order |
| Layout.HeaderLayout | crates/consensus/src/pow.rs:69-84 | the 226 bytes of a header preimage, field by field |
| Layout.GovernanceLayout | crates/state/src/apply.rs:201-252 | the bytes each governance proof signs |
| Layout.KeyLayout | crates/state/src/apply.rs:312-341 | the storage keys of records, heights and rounds high byte first |
| Layout.SingleKeys | crates/state/src/apply.rs:94-98 | the keys "governance" and "latest" |
| Layout.RotationKeys | crates/state/src/apply.rs:36-66 | the keys "upgrade_crypto" and "active_crypto" |
| Layout.EntryLayout | crates/state/src/store.rs:51-63 | one entry of a state root preimage, and the persistent key |
| Layout.FrameLayout | crates/node/src/chainstore.rs:62-78 | one block of the log: four bytes of length, low byte first, and its encoding |
| Order.LexLessIff | crates/node/src/mempool.rs:76-88 | byte strings are ordered by their first difference, a proper prefix first |
| Stores.MemState.Root | crates/state/src/store.rs:51-63 | the buffer loop hashes the canonical preimage of the map |
| Stores.RocksState.Put | crates/state/src/rocks_store.rs:140-154 | a put updates one tagged key and keeps the cached root truthful |
| Stores.RocksState.Root | crates/state/src/rocks_store.rs:167-196 | the returned root, cached or rebuilt, is the root of the current contents |
| Stores.RocksState.ImportFrom | crates/state/src/rocks_store.rs:95-108 | an import overwrites the imported keys and drops the cached root |
| Stores.LayoutKeepsPreimage | crates/state/src/rocks_store.rs:110-117 | walking tagged keys in byte order gives the same preimage as walking (subtree, key) pairs in tuple order |
| Stores.StoresAgree | crates/state/src/rocks_store.rs:139-196 | after any sequence of puts both stores answer every get alike and have the same root preimage |
| Stores.GetIsLastPut | crates/state/src/rocks_store.rs:140-165 | both stores answer a get with the last value put under that key, and with nothing where none was |
| Stores.MemState.Put | crates/state/src/store.rs:45-50 | after a put its key reads back and every other key reads as before |
| Stores.PreimageIdentifiesState | crates/state/src/store.rs:51-63 | with lengths below 2^32 two states have the same root preimage only if they are the same map |
| Stores.ImportKeepsRootIff | crates/state/src/rocks_store.rs:95-108 | an import reproduces the source's root if and only if it overwrites every key already present |
| Stores.ImportIntoEmptyKeepsRoot | crates/state/src/rocks_store.rs:95-108 | an import into an empty store always reproduces the source's root |
| ChainStore.ChainStore.ReadAll | crates/node/src/chainstore.rs:115-135 | the read loop yields the parse of the file |
| ChainStore.ChainStore.Prime | crates/node/src/chainstore.rs:53-60 | priming sets count and tip to what the file holds, and on a file written as a log it makes the store valid with exactly those blocks |
| ChainStore.ChainStore.Append | crates/node/src/chainstore.rs:62-78 | appending adds one frame and keeps the cached tip and count in step with the file |
| ChainStore.ChainStore.Height | crates/node/src/chainstore.rs:92-95 | the cached height is the last block's, zero for an empty log |
| ChainStore.ChainStore.Len | crates/node/src/chainstore.rs:97-100 | the cached count is the number of blocks in the file |
| ChainStore.ChainStore.Recent | crates/node/src/chainstore.rs:103-107 | the last blocks, newest first |
| ChainStore.ChainStore.GetByHeight | crates/node/src/chainstore.rs:109-112 | the block at a height, when the log has one |
| ChainStore.LogRoundTrip | crates/node/src/chainstore.rs:62-135 | reading a written log returns its blocks; a torn length is dropped, a torn body is an error |
| Mempool.Mempool.Submit | crates/node/src/mempool.rs:38-74 | a submission is refused for a wrong witness hash or a duplicate, otherwise admitted, evicting one oldest entry when full |
| Mempool.Mempool.PullForBlock | crates/node/src/mempool.rs:76-88 | the pulled entries are the best ones, in order |
| Mempool.Mempool.Confirm | crates/node/src/mempool.rs:90-95 | exactly the confirmed hashes leave the pool |
| Mempool.BestIsBest | crates/node/src/mempool.rs:76-88 | the selection is strictly ordered by fee then hash, as long as possible, and nothing left out precedes anything taken |
| Mempool.HighestFeesFirst | crates/node/src/mempool.rs:76-88 | of two entries taken the earlier pays more, or as much with the smaller hash; so does any entry taken against any left out |
| Mempool.OldestMakesRoom | crates/node/src/mempool.rs:60-74 | admission at capacity drops exactly the entry that arrived first, the smallest hash among several, and nothing else changes |
| Mempool.AdmittedKeepsPool | crates/node/src/mempool.rs:38-74 | admission keeps the pool within capacity, keyed by body hash, with matching witness hashes |
| Mempool.Oldest | crates/node/src/mempool.rs:60-70 | the evicted entry is in the pool and no entry arrived earlier |
| Finality.VerifyCert | crates/finality/src/lib.rs:259-289 | accepted exactly when epoch and size fit, every vote matches the block, voters are distinct and each signature counts |
| Finality.VerifyAggregatedCert | crates/finality/src/lib.rs:313-356 | accepted exactly when epoch, size and count fit, every marked member can aggregate and the aggregate verifies over their keys |
| Finality.AcceptedCertHasQuorum | crates/finality/src/lib.rs:259-289 | an accepted certificate carries at least quorum distinct committee members who signed its block |
| Finality.ConflictingCertsShareSigners | crates/finality/src/lib.rs:259-289 | two accepted certificates for one epoch and round share at least 2*quorum - n members who signed both |
| Certificates.VoteCountsIff | crates/finality/src/lib.rs:230-253 | a vote passes if and only if it is for the committee's epoch and the first member under its voter's id, with its algorithm, verifies it over everything but the signature |
| Certificates.VoteErrorsNameDefects | crates/finality/src/lib.rs:230-253 | a refused vote has the defect its error names, the first in order |
| Certificates.CertAcceptedIff | crates/finality/src/lib.rs:259-289 | a certificate is accepted if and only if it is for the epoch, has a quorum of votes by different voters, and each is for its round, height and block and signed by a member |
| Finality.SignerCountIncludesPadding | crates/finality/src/lib.rs:190-202 | the signer count is the marked committee slots plus the padding bits, so it is the number of keys when padding is clear |
| Finality.AggregateHasQuorum | crates/finality/src/lib.rs:313-356 | an accepted aggregate with clear padding covers at least quorum keys |
| Finality.PaddingReachesQuorum | crates/finality/src/lib.rs:190-202 | an aggregate of two keys is accepted against a quorum of five when three padding bits are set |
| Certificates.AggregateAcceptedIff | crates/finality/src/lib.rs:313-356 | an aggregate is accepted if and only if epoch, bit count and algorithms fit and the key aggregated from the marked members verifies its signature on its epoch, round, height and block |
| Certificates.KeysAreMarked | crates/finality/src/lib.rs:331-342 | the keys aggregated are those of the members whose bit is set, in order, lowest bit of the first byte first |
| Certificates.ConflictingAggregatesShareSigners | crates/finality/src/lib.rs:313-356 | two aggregates accepted for one round and different blocks, with clear padding, were signed by member sets that share at least 2*quorum - n |

## Left out

- HTTP, JSON, command line, GUI, wallet files, metrics, web pages and deployment files: plumbing around the core.
- Hash functions, signature schemes, key derivation and bech32: parameters, with no law assumed of them except where a lemma states it (`History`, `Binding`, `Convergence`).
- CBOR: state records are typed values and governance proofs and configurations go through decoding parameters; the byte-level stores are modelled on their own in `Stores`. The state root in a block's output is a function of the typed store, given as a parameter.
- `crates/vm`, `crates/p2p`, `accordion.rs` and `reflection.rs`: not on the block path beyond the record written per block.
- `Committee::round_for_height` and `reorg_allowed`: single comparisons.
- Mining, block templates and the self-miner loop; in particular the RPC template uses the node's initial bits, and nothing here says it agrees with the validator.
- Threads and locks: `try_apply_block` is one atomic step.
- The wall clock is a parameter of each attempt; failing disk writes and RocksDB errors are not modelled.
- Error texts; errors keep their kind and their numbers.
- The genesis block is taken as `init` wrote it: the log's first header is unchecked, as in the source.
- Library sorting and ordered-map iteration are functions characterised by their order, not loops.
- `asert_target` is followed for consecutive blocks, the only way the node calls it; a parent at height 2^64-1 wraps and passes its target through.
- `signer_count` sums into an unbounded number; the source's 32-bit sum differs only for bitmaps over half a gigabyte.
- Finality.ConflictingCertsShareSigners: states who signed both blocks, not that any of them is punished; the repository has no punishment.
- History.TipFixesHistory: says nothing of governance proofs and coordinator order, because body hashes leave both out.
- Convergence.TipFixesReplay: assumes that both logs replay, because a governance proof decides whether a block does and no header commits to it.
- Atomicity.RejectedBlockWritesIff: at the largest nonce only `OtherBlocksAreAtomic` is claimed, because there a repeated sender may be accepted and a late failure may happen to write nothing new; balances plus the reward are assumed to fit 128 bits, which `Supply` proves of every reachable state.
- Acceptance.NextBlockAcceptedIff: at the largest nonce nothing is claimed beyond the header, for the same reason; the log is assumed no longer than 2^64-1 blocks, where heights would wrap.
- Certificates.ConflictingAggregatesShareSigners: says the sets of marked members were aggregated and verified together, because that a single member signed is a law of the signature scheme.
- Restart.RestartAgreement: the log is assumed shorter than 2^64 blocks, where heights would wrap.
- Restart.RestartAfterRun: at the largest nonce only `CleanRunsRestart` is claimed, for the same reason.
- Spending.EachNonceIsChargedOnce: says nothing of an account that signs away coins at nonce 2^64-1, where nonces no longer tell transactions apart.
- NodeState.InstallGenesisGovernance: hex decoding is a parameter, and errors are one refusal rather than texts.
- NodeState.EmissionSeries: the response's constant fields are not repeated.
- Supply.SupplyCap: fixes the node's cap of 21 million coins and a 64-bit initial reward; other parameters need `Emission.Affordable`.
