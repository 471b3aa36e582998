# solo-pool-rs, verified

A Dafny model of the parts of solo-pool-rs in which a mistake costs a block or
misreports a miner: turning a block template into a job, judging a share, keeping
jobs and found blocks, steering difficulty, accounting for work, and the edges of a
session. `dafny verify dfyconfig.toml` checks everything.

The model follows the code. Pure code is functions and lemmas; code that updates
fields, arrays or buffers is classes and loops, each proved against a specification
whose own properties are lemmas; code shared between threads is a step machine whose
runs are all interleavings of its atomic operations.

| file | component |
|---|---|
| `Merkle`, `Target`, `HashDifficulty`, `Bip34`, `Coinbase` | job builder and proof-of-work arithmetic |
| `Transaction`, `Header`, `Varint`, `ShareCheck` | how a node reads transactions, headers and blocks; template to verdict end to end |
| `JobHistory`, `FoundBlock` | template engine: job history, found-block protocol |
| `ShareSet` | duplicate shares |
| `ShareRecord`, `Vardiff` | share record and difficulty controller |
| `WorkerStats`, `Sessions`, `ShareHandoff`, `ShareConservation`, `SessionRuns` | per-worker state, session counts and share records across all sessions; exactly when work is lost, and runs in which it is |
| `RejectWindow`, `RoundWork` | hourly window; atomics of the round |
| `LineReader`, `RateLimiter`, `Sv2Session` | session edges |
| `Arith`, `Bytes`, `Wrappers` | shared arithmetic, byte strings, option type |

## What is proved

- **Whole paths.** A job made from a template and a verdict on a share
  (`ShareCheck.BuildJob`, `ShareCheck.ValidateShare`, composed in
  `ShareCheck.MineTemplate`): the hashed header names the template's previous block and
  the root of the full merkle tree over the spliced coinbase and every transaction, its
  version is rolled bit by bit as asked, a node reads the found block's coinbase as one
  that pays the reward to the pool's address at the template's height, and each verdict is
  given exactly when it should be.
- **Whole runs.** Stale-job safety, the found-block protocol under crashes, duplicate
  detection, session counts, share records across sessions, conservation of round
  work: invariants over every run of a step machine, and that what was started is carried
  through: a found block keeps being submitted until it is settled, and is credited.
- **Arithmetic.** 256-bit long division, target comparison and Stratum V2 targets are
  one integer inequality; hash difficulty has tight two-sided bounds; a retarget is given
  in numbers, geometric mean, factor limit and rounding included.

## Where the code does not do what its comments say

Each of these has a lemma that shows it, beside the condition under which the code is
right.

- `hash_difficulty` is documented as at least the assigned difficulty
  (src/mining/validator.rs:142). It is not: below difficulty 2^56 some accepted hash is
  credited with nothing (`HashDifficulty.CreditedWithNothing`); it holds exactly for
  the difficulties of `HashDifficulty.NeverUnderstatedIff`.
- The extranonce search can land inside the height push, for example at height
  0xEFBEADDE (`Coinbase.SentinelHeight`); it lands right exactly when the height push
  does not spell the sentinel (`Coinbase.MarkedSearch`), which covers all heights below
  2^31 (`Coinbase.RealHeightsPass`).
- Between the two locks of a refresh a lookup can vouch for a tip the current job has
  already left, even with refreshes one at a time (`JobHistory.GapServesDeadTip`), and two
  refreshes whose appends cross leave a dead tip looking live for good
  (`JobHistory.CrossedAppendsServeDeadTip`). In whatever order they append, the live jobs
  of the history share the newest one's tip at every moment exactly when every appended
  entry is clean, the first, or on that tip (`JobHistory.LiveAgreeIff`); then a live job
  has the current tip exactly when the newest one has it (`JobHistory.LiveTipIff`), which
  is always so with no refresh in flight (`JobHistory.NoDeadTip`).
- "A clean job changes prev_hash" (src/mining/validator.rs:44-46) is a hypothesis: a
  clean job on an unchanged tip forgets accepted hashes (`ShareSet.CleanJobForgets`,
  `ShareSet.NoReplayWhenTipsDiffer`).
- A silent miner is documented to be moved down (src/mining/vardiff.rs:271-274). When
  it has been observed for less than two thirds of a target share time it is moved up,
  unless rounding swallows the step (`Vardiff.SilenceRaisesIff`). Silence counts as one
  share at the current difficulty, so a window with less work than that can be judged
  below a silent one (`Vardiff.SilenceOutranksOneShare`, `Vardiff.JudgedMonotone`).
- Two calls crediting one block that both pass the check list it twice
  (`RoundWork.OverlapListsTwice`). A run at rest lists every block once exactly when at no
  moment two calls for one block were past their check (`RoundWork.QuietDistinctIff`).
- The pruner lists idle workers first and removes them later. A worker that comes back
  in between is evicted with a session bound to it (`SessionRuns.LateRemovalHitsBoundWorker`)
  and can lose fresh work (`SessionRuns.LateRemovalLosesWork`). A removal keeps the counts
  exactly when the worker has no live session at that moment (`Sessions.ForgetCountsIff`).
- Two sessions of one worker lose work when both park their records
  (`SessionRuns.TwoSessionsLoseWork`). With any number of sessions a step loses work
  exactly when it overwrites or removes a parked record that still holds a share within
  24 hours (`ShareConservation.StepConservesIff`), and nothing is ever counted twice
  (`ShareConservation.RunNeverAdds`).
- A hash found a second time has its archive file written anew; a crash in the middle
  loses a block that was safely archived (`FoundBlock.SecondFindTruncates`). A whole,
  unsettled block loses its last whole file exactly when a writer creates its file anew
  (`FoundBlock.WholeLostIff`).
- A found block whose retrier gives up and which the boot's replay, listing the archive
  late, then delivers is credited to nobody (`FoundBlock.ReplayDoesNotCredit`). With its
  tasks over and neither a refusal nor a retrier that gave up, it is
  (`FoundBlock.AcceptedOrPursued`).
- Sessions are promised disjoint search space (src/config.rs:352-353). Two of them meet
  exactly when the narrower prefix opens the wider one (`Sv2Session.SpacesMeetIff`,
  `Sv2Session.PrefixOpensIff`); a Stratum V2 channel granted the whole width meets all.
- A line of `max` bytes plus a carriage return is accepted or refused depending on
  where a chunk ends (`LineReader.BorderlineDependsOnChunks`).
- An other-reject at Unix time 0 is never inside the hour (`RejectWindow.CutoffIsHour`).

## Model

| member | source | states |
|---|---|---|
| Merkle.ComputeMerkleBranchRaw | src/bitcoin/template.rs:400-445 | for every coinbase hash, climbing the branch gives the root of the full tree with odd levels padded; the branch has exactly ceil(log2(n+1)) entries; the level loop terminates |
| Merkle.MerkleRootFromBranch | src/bitcoin/template.rs:138-148 | the submit-time fold is the climb from the coinbase's hash |
| Merkle.CommitTransactions | src/bitcoin/template.rs:138-148 | branch once, fold later: the root of the tree over finished coinbase and all txids |
| Merkle.LevelUp | src/bitcoin/template.rs:411-442 | one padding and pairing step keeps the root as seen from leaf 0 |
| Merkle.MerkleOfThree | src/bitcoin/template.rs:411-442 | three leaves give hash(hash(a, b), hash(c, c)): order and padding of the reference tree |
| Target.DivBeU256ByU64 | src/bitcoin/template.rs:593-604 | the byte-wise quotient is the integer quotient, no digit or remainder bit lost |
| Target.DifficultyToTarget | src/bitcoin/template.rs:498-510 | the target is floor(0xFFFF * 2^208 / max(d, 1)) |
| Target.MeetsTargetIsNumeric | src/mining/validator.rs:395-399 | the array comparison is LE(hash) <= BE(target) |
| Target.MeetsDifficulty | src/mining/validator.rs:238-239 | a share passes exactly when hash * max(d, 1) <= 0xFFFF * 2^208 |
| Target.DifficultyToSv2Target | src/protocol/sv2/job.rs:24-28 | the same integer, little-endian |
| Target.Sv2TargetLeIsNumeric | src/protocol/sv2/job.rs:32-39 | the comparison is the numeric one |
| Target.Sv2TargetsOrdered | src/protocol/sv2/job.rs:24-39 | harder difficulties compare <=, and both protocols pass the same hashes |
| Target.ChannelTarget | src/protocol/sv2/mod.rs:597-606 | the channel's target is never easier than the device's maximum or the difficulty, and is one of the two |
| Target.CompactToTarget | src/bitcoin/template.rs:560-591 | for bits e * 2^24 + s * 2^23 + m the target is m * 256^(e-3), floored below three, an error exactly when a set mantissa has e > 32 |
| HashDifficulty.HashToDifficulty | src/bitcoin/template.rs:516-558 | the shifting loop computes the leading-word quotient with no overflow |
| HashDifficulty.HashDifficultyBounds | src/bitcoin/template.rs:516-558 | 0 for nz < 4, saturated for nz >= 12 or a zero hash, otherwise above DIFF1/H - 256^(nz-4) and at most (DIFF1/H)(1 + 2^-56) |
| HashDifficulty.ReachesIff | src/bitcoin/template.rs:541-556 | when exactly one hash's difficulty reaches a given one |
| HashDifficulty.NeverUnderstatedIff | src/mining/validator.rs:141-143 | the documented hash_difficulty >= assigned holds for a difficulty exactly when it passes a check on the difficulty alone |
| HashDifficulty.CreditedWithNothing | src/mining/validator.rs:141-143 | below 2^56 a hash passes the share test and has hash difficulty 0 |
| Bip34.EncodeBip34Height | src/bitcoin/template.rs:361-381 | the encoder loop yields the specified push |
| Bip34.HeightRoundTrip | src/bitcoin/template.rs:361-381 | decoding gives back the height and exactly what follows, for every u64 |
| Bip34.PayloadValue | src/bitcoin/template.rs:368-377 | the payload is the height with the sign bit clear |
| Bip34.PayloadMinimal | src/bitcoin/template.rs:368-377 | no shorter payload with a clear sign bit has this value |
| Bip34.HeightPrefixFree | src/bitcoin/template.rs:361-381 | a height push is a prefix of another's script exactly when the heights are equal, whatever follows |
| Coinbase.FindBytes | src/bitcoin/template.rs:638-640 | the first match, or none exactly when there is none |
| Coinbase.NoSentinelInText | src/bitcoin/template.rs:281-289 | no UTF-8 text contains the sentinel's first three bytes |
| Coinbase.MarkedSearch | src/bitcoin/template.rs:281-335 | the first match is the byte after height push and tag exactly when the height push does not spell the sentinel |
| Coinbase.RealHeightsPass | src/bitcoin/template.rs:262-335 | no height below 2^31 spells it |
| Coinbase.SentinelHeight | src/bitcoin/template.rs:281-335 | a height that does |
| Coinbase.ScriptWithinConsensus | src/config.rs:362-380 | for heights below 2^31 and admitted widths the script has 2 to 100 bytes |
| Coinbase.BuildCoinbase | src/bitcoin/template.rs:252-344 | both error cases; otherwise room for the extranonce, and exactly when the height push does not spell the sentinel the intended template, which a node reads as version 1, one null input, the reward to the address, nothing to the commitment, and a script that starts with the height |
| Coinbase.AssembleCoinbase | src/bitcoin/template.rs:124-135 | coinbase1, extranonce1, extranonce2, coinbase2 when the widths add up, otherwise the template |
| Coinbase.BuildAndAssemble | src/bitcoin/template.rs:161-184 | for every height and split of the width the assembled coinbase is the two halves around the extranonce; unless the height push spells the sentinel a node reads it as the coinbase of that height, tag and extranonce paying the reward to the address |
| Coinbase.SerializedReads | src/bitcoin/template.rs:291-326 | a reader written from the byte layout gets back version, null outpoint, script, sequence, the outputs in order with values and scripts, and lock time, with nothing left over |
| Coinbase.CoinbaseReads | src/bitcoin/template.rs:262-326 | for every height, tag, extranonce, reward and commitment the serialized coinbase reads as the one that pays them |
| Varint.VarintRoundTrip | src/mining/validator.rs:401-417 | a reader recovers the count and exactly what follows |
| Varint.VarintLength | src/mining/validator.rs:401-417 | one, three, five or nine bytes, and from which count on |
| Varint.VarintShortest | src/mining/validator.rs:401-417 | nothing shorter reads as the same count |
| Header.SwapWordsInPlace | src/protocol/sv2/job.rs:52-54 | the in-place loop reverses each four-byte word |
| Header.SwapTwice | src/mining/validator.rs:348-354 | swapping words twice is the identity |
| Header.StratumPrevHash | src/bitcoin/template.rs:622-635 | un-swapping the Stratum form gives the internal order; an error exactly for a wrong length |
| Header.StratumPrevHashToInternal | src/protocol/sv2/job.rs:47-58 | the Stratum V2 conversion is that un-swapping |
| Header.VersionRolls | src/mining/validator.rs:304-324 | bit by bit: refused exactly when a submitted bit lies outside the mask; otherwise each bit is the miner's where the mask is set and the template's elsewhere; without bits the template's; an absent mask is bits 13 to 28 |
| Header.BuildHeader | src/mining/validator.rs:335-370 | a node parses the 80 bytes back into exactly the fields |
| Header.AssembleBlock | src/mining/validator.rs:373-392 | a node reads the header, the right transaction count, the coinbase and all transactions in order |
| ShareCheck.BuildJob | src/bitcoin/template.rs:161-240 | the job commits to the template for every coinbase; it is made exactly when address, commitment, txids, previous hash and bits are usable; its coinbase is the intended one exactly when the height push does not spell the sentinel |
| ShareCheck.ValidateShare | src/mining/validator.rs:174-257 | each verdict exactly when due: stale, time past the floor or two hours ahead, a version bit outside the mask, then network target, then share target, on the hash of a header with the rolled version over the template's previous block and full merkle root; a found block parses back |
| ShareCheck.MineTemplate | src/mining/validator.rs:217-235 | composed, for every height whose push does not spell the sentinel: a node reads a found block's coinbase as one for the template's height that pays the reward to the pool's address and carries the extranonce, and it is what the header commits to and the block contains |
| JobHistory.TemplateEngine.Refresh | src/mining/engine.rs:393-423 | history is the last eight jobs issued; the new one is clean exactly when that was asked for, there was no current job, or its prev_hash differs from the current one's |
| JobHistory.TemplateEngine.FindJob | src/mining/engine.rs:314-320 | found exactly if among the last eight; superseded exactly when a later refresh asked for a clean job or changed the tip; a job not superseded has the current job's prev_hash between whole refreshes |
| JobHistory.LookupInLog | src/mining/engine.rs:314-320 | lookup in the bounded history equals lookup in the unbounded log |
| JobHistory.ReplaceFlags | src/mining/engine.rs:393-398 | the same of the flag in the step machine |
| JobHistory.RunFlags | src/mining/engine.rs:393-423 | over every run with appends in order each job's flag is right for what was asked and the job before |
| JobHistory.AnyOrderLookup | src/mining/engine.rs:314-320 | over every run, appends in any order, a lookup finds the oldest of the last eight appended with the id, superseded exactly when an entry appended later was flagged clean |
| JobHistory.SupersededIff | src/mining/engine.rs:314-320 | over every run with appends in order a job found is among the last eight and superseded exactly when a later refresh in the history asked for a clean job or changed the tip |
| JobHistory.PushAgreesIff | src/mining/engine.rs:412-422 | after an append the live jobs still share the newest one's tip exactly when the entry is clean, the first, or on that tip, eviction included |
| JobHistory.LiveAgreeIff | src/mining/engine.rs:393-423 | over every run, appends in any order, they share it at every moment exactly when every append passes that test |
| JobHistory.InOrderFits | src/mining/engine.rs:393-423 | appends in the order of the current-job updates all pass |
| JobHistory.LiveJobsShareNewestTip | src/mining/engine.rs:314-320 | then at every moment, also between a refresh's two locks, a job not superseded has the tip of the newest job in the history |
| JobHistory.LiveTipIff | src/mining/engine.rs:393-423 | so it has the current tip exactly when that newest job has it |
| JobHistory.NoDeadTip | src/mining/engine.rs:393-423 | hence, appends in order and no refresh in flight, no lookup vouches for a dead tip |
| JobHistory.GapServesDeadTip | src/mining/engine.rs:393-423 | with one in flight between its locks a lookup can, refreshes one at a time |
| JobHistory.CrossedAppendsServeDeadTip | src/mining/engine.rs:393-423 | appends out of order serve one with none in flight |
| FoundBlock.InvHolds | src/mining/engine.rs:245-294 | every interleaving of finds, also of one hash again, archive write, inline tries, retrier, crash, boot and replay keeps the protocol's invariant |
| FoundBlock.ArchivedBlocksAreKept | src/mining/engine.rs:451-590 | once archived a block is whole on disk, in two places only if its hash was found again; submitted/ implies a node success, rejected/ a refusal on replay; until then the next boot lists it |
| FoundBlock.ArchivedStays | src/mining/engine.rs:666-683 | archived it stays until the next find of its hash, however often it was found before |
| FoundBlock.WholeLostIff | src/mining/engine.rs:646-683 | a whole block neither accepted nor refused on replay loses its last whole file exactly when a writer creates its file anew |
| FoundBlock.WholeStays | src/mining/engine.rs:646-683 | over every continuation without that it stays whole |
| FoundBlock.SecondFindTruncates | src/mining/engine.rs:666-683 | a run in which a second find overwrites the first file and a crash leaves no whole one |
| FoundBlock.CreditedAtMostOnce | src/stats.rs:925-951 | at most one credit however often found, and only after a node success |
| FoundBlock.FiledStaysFiled | src/mining/engine.rs:646-663 | a filed block stays filed and is listed for replay again only if its hash is found again |
| FoundBlock.NextBootDelivers | src/mining/engine.rs:245-294 | from any point of any run a crash and a boot with a willing node deliver it |
| FoundBlock.NextBootRetries | src/mining/engine.rs:276-290 | the same delivery by the background retrier when the replay gets no answer |
| FoundBlock.NextBootSetsAside | src/mining/engine.rs:262-285 | a replay answered with a refusal or an error files it whole under rejected/ |
| FoundBlock.RunPursues | src/mining/engine.rs:451-590 | in every run a block found since the last crash has a submitting task, is about to be credited, is credited, was refused, or its retrier gave up |
| FoundBlock.StillSubmitted | src/mining/engine.rs:451-590 | so while neither accepted nor refused it has an inline or retrier task, until the retrier gives up |
| FoundBlock.HandedToRetrier | src/mining/engine.rs:480-501 | three attempts without a result, not fewer, hand it to the retrier, which goes on |
| FoundBlock.TaskDelivers | src/mining/engine.rs:451-590 | from any state with such a task one accepting answer and the credit give an accepted, credited block |
| FoundBlock.TaskFiles | src/mining/engine.rs:646-663 | and its archived file moves under submitted/ |
| FoundBlock.AcceptedIsCredited | src/mining/engine.rs:451-590 | in every run what was accepted from a finder's own submission is credited or about to be |
| FoundBlock.AcceptedOrPursued | src/mining/engine.rs:451-590 | with no task left, no refusal and no retrier that gave up, it is accepted and credited or about to be |
| FoundBlock.ReplayDoesNotCredit | src/mining/engine.rs:245-294 | a run in which the retrier gives up and a replay delivers the block with no credit |
| ShareSet.ShareSet.Insert | src/mining/validator.rs:75-87 | set and queue agree, no repeats, at most max(max_size, 1) entries, oldest evicted |
| ShareSet.ShareSet.Clear | src/mining/validator.rs:109-112 | both empty |
| ShareSet.ShareSet.Dedup | src/mining/validator.rs:93-105 | a hash in the queue is a duplicate; any other is accepted and recorded last, the oldest leaving a full queue; an error passes through; nothing else changes |
| ShareSet.RunTracks | src/mining/validator.rs:60-113 | in every run the queue is the newest accepted hashes since the last clear |
| ShareSet.AcceptedIff | src/mining/validator.rs:60-113 | in every run a hash is accepted exactly when it is not among the newest max(max_size, 1) accepted since the last clear |
| ShareSet.RunSeparates | src/mining/validator.rs:60-113 | two acceptances of a hash are separated by a clear or by max_size other distinct accepted hashes |
| ShareSet.NoReplayWhenTipsDiffer | src/mining/validator.rs:44-48 | if each clear brings a new tip, only the second case is left |
| ShareSet.CleanJobForgets | src/mining/validator.rs:44-48 | without that a replay after a clear is accepted |
| ShareRecord.WorkOfSuffix | src/mining/vardiff.rs:338-347 | a record that lost only expired shares gives the full log's sum for every window up to 24 hours |
| ShareRecord.RecordHolds | src/mining/vardiff.rs:202-218 | recording and evicting keeps that |
| ShareRecord.RestoreHolds | src/mining/vardiff.rs:237-247 | so does taking a record back, filtering included |
| ShareRecord.WorkOfOne | src/mining/vardiff.rs:338-347 | a share counts exactly until `window` after its instant |
| ShareRecord.WorkConcat | src/mining/vardiff.rs:338-347 | and a list counts what its parts count |
| ShareRecord.RetainedOfOne | src/mining/vardiff.rs:237-247 | a share is kept on taking back exactly until 24 hours after its instant |
| ShareRecord.EvictTrims | src/mining/vardiff.rs:202-218 | evicting drops a front in which everything is more than 24 hours old, up to the first share that is not |
| Vardiff.Vardiff.RecordShare | src/mining/vardiff.rs:202-218 | the new share goes last and the eviction loop drops exactly the front older than 24 hours |
| Vardiff.Vardiff.TakeShareHistory | src/mining/vardiff.rs:222-227 | the whole record leaves, an empty one anchored now stays |
| Vardiff.Vardiff.RestoreShareHistory | src/mining/vardiff.rs:237-247 | retained earlier shares in front of the session's own, earlier anchor |
| Vardiff.Vardiff.WorkInWindow | src/mining/vardiff.rs:338-347 | the saturated sum over the window, and as time observed the age of the record, at most the window |
| Vardiff.Vardiff.Suggest | src/mining/vardiff.rs:146-167 | clamped hint; only a session's first one delays the next retarget |
| Vardiff.Vardiff.CreditFor | src/mining/vardiff.rs:188-196 | a threshold the session held, reached by the hash unless it is the floor |
| Vardiff.Vardiff.CheckRetarget | src/mining/vardiff.rs:275-333 | nothing before the interval is over; then the judged difficulty, reported exactly when it differs, in range, old one remembered |
| Vardiff.JudgedInNumbers | src/mining/vardiff.rs:284-319 | the retarget in numbers: nothing between 2/3 and 3/2 of the ideal difficulty; within a factor of three the geometric mean, beyond it the ideal, both limited by the factor, rounded to within 0.5 and clamped; window of twenty target times or the interval, 64-bit saturation included |
| Vardiff.JudgedBetween | src/mining/vardiff.rs:284-319 | a retarget stays in range, moves at most the factor up to rounding, and lands between current and the rounded, clamped, supported difficulty |
| Vardiff.JudgedMonotone | src/mining/vardiff.rs:296-319 | more proven work, silence proving one share at the current difficulty, never gives a lower difficulty |
| Vardiff.MoveCloser | src/mining/vardiff.rs:303-323 | on constant evidence every move is strictly closer to the supported difficulty |
| Vardiff.RetargetingStops | src/mining/vardiff.rs:303-323 | so there are at most as many moves as the starting distance |
| Vardiff.RestIff | src/mining/vardiff.rs:305-323 | a retarget changes nothing exactly when the evidence is inside the band, the limited step is below half a unit, or the range stops it |
| Vardiff.LargeStepCounts | src/mining/vardiff.rs:307-319 | for a factor of at least 1.5 and a difficulty of at least 3 no step outside the band is that small |
| Vardiff.SilenceRaisesIff | src/mining/vardiff.rs:271-303 | below the ceiling a silent miner's difficulty rises exactly when it was observed less than two thirds of a target share time and rounding does not swallow the step |
| Vardiff.SilenceOutranksOneShare | src/mining/vardiff.rs:297-303 | a window with less work than one share at the current difficulty is judged below a silent one |
| WorkerStats.PoolStats.MarkWorkerOnline | src/stats.rs:1128-1176 | a session more, online, difficulty and connection time the new ones, last submit kept; like every method here it keeps each worker online exactly while it has sessions |
| WorkerStats.PoolStats.MarkWorkerOffline | src/stats.rs:1178-1187 | a session fewer, offline exactly at none |
| WorkerStats.PoolStats.MarkWorkerSubmit | src/stats.rs:1120-1126 | both copies of the last submit agree |
| WorkerStats.PoolStats.StashShareHistory | src/stats.rs:1190-1193 | the record is parked, replacing any other |
| WorkerStats.PoolStats.TakeShareHistory | src/stats.rs:1204-1207 | the parked record, if any, leaves the map |
| WorkerStats.PoolStats.UpdateWorkerVardiff | src/stats.rs:1259-1265 | the recorded difficulty is the new one and nothing else changes, or an unknown worker comes online with it and one session |
| WorkerStats.PoolStats.PruneIdleWorkers | src/stats.rs:1311-1342 | undisturbed, a worker leaves all maps exactly when it is offline and both its last submit and its last connection are more than 86400 seconds back |
| WorkerStats.ComeAndGo | src/stats.rs:1128-1187 | a session that comes and goes leaves count, flag and all other workers as they were |
| WorkerStats.ParkAndTake | src/stats.rs:1190-1207 | a parked record is handed back once, others stay |
| Sessions.RunCounts | src/network/session.rs:633-652 | in every interleaving, with pruning as a scan and a removal per worker, a worker's active_sessions is the number of live sessions bound to it and it is online exactly when positive, unless it was removed with a live session |
| Sessions.AwayRunCounts | src/stats.rs:1311-1342 | for a worker that does not come online between its scan and its removal that never happens: the count is right and no bound worker is evicted |
| Sessions.ForgetCountsIff | src/stats.rs:1332-1342 | forgetting a set of workers keeps all counts right exactly when none of them has a live session |
| Sessions.BoundWorkerKnown | src/stats.rs:1259-1265 | update_worker_vardiff never re-creates a bound session's worker while its count is right |
| Sessions.RetargetShows | src/stats.rs:1259-1265 | a retarget shows up as the worker's difficulty and nothing else |
| Sessions.RequestCounts | src/protocol/sv2/mod.rs:546-618 | authorize and open keep the counts: refused, repeated, over the identity limit, or a switch |
| Sessions.CloseCounts | src/network/session.rs:331-336 | closing keeps them |
| SessionRuns.SwitchHandsOver | src/protocol/sv2/mod.rs:546-618 | a bound session that takes another name leaves the old worker's record parked whole and its count one lower, and gets the new worker's retained shares and count one higher |
| SessionRuns.TooManyEnds | src/protocol/sv2/mod.rs:546-618 | one identity too many ends the session as closing does, record parked |
| SessionRuns.LateRemovalHitsBoundWorker | src/stats.rs:1314-1342 | a run from the start in which a worker that returned after its scan is removed with a session bound |
| SessionRuns.LateRemovalLosesWork | src/stats.rs:1314-1342 | a run in which such a removal loses work a 24-hour window should see |
| SessionRuns.TwoSessionsLoseWork | src/stats.rs:1190-1193 | a run in which two sessions of one worker end with five units accepted and none in the parked record |
| ShareConservation.StepConservesIff | src/stats.rs:1190-1207 | for any number of sessions of a worker: if every share within 24 hours is held, parked or by its sessions, exactly as often as accepted, it still is after a step exactly unless the step overwrites or removes a parked record with such a share |
| ShareConservation.RunConservesIff | src/stats.rs:1190-1207 | over every run all are held all along exactly when no step does that |
| ShareConservation.RunNeverAdds | src/mining/vardiff.rs:237-247 | over every run no share is ever held more often than it was accepted |
| ShareConservation.RunWork | src/mining/vardiff.rs:338-347 | hence the windows of a worker's record and sessions together never show more than was credited, and for windows up to 24 hours exactly that while no step discards such a record |
| ShareHandoff.WindowsSeeTheFullLog | src/stats.rs:1190-1207 | for a worker with one session at a time that stays away while scanned, over any run, a window up to 24 hours sees the sum over its complete log |
| ShareHandoff.ParkedSeesTheFullLog | src/stats.rs:1190-1207 | the same between sessions; with nothing parked the sum is zero |
| ShareHandoff.PrunedIsPast | src/stats.rs:1312-1341 | an idle worker's shares are all past retention when it is scanned |
| RejectWindow.RejectWindow.Summary | src/stats.rs:131-146 | below saturation the totals are a plain count over the log's last sixty minutes, never more; the histogram is that of the last 256 other rejects inside the hour |
| RejectWindow.RejectWindow.Totals | src/stats.rs:132-139 | every minute of the window counts, capped at the counter's width |
| RejectWindow.RejectWindow.RecordAccepted | src/stats.rs:104-107 | the ring stays correct for the log with one event more |
| RejectWindow.RejectWindow.RecordStale | src/stats.rs:109-112 | the same for a stale reject |
| RejectWindow.RejectWindow.RecordOther | src/stats.rs:114-127 | the queue stays correct, pruned and bounded |
| RejectWindow.SlotsCoverWindow | src/stats.rs:132-139 | the sixty slots' minutes partition the window |
| RejectWindow.SlotContribution | src/stats.rs:92-102 | a slot shows the count of its window minute, or none |
| RejectWindow.QueueSeesRecent | src/stats.rs:140-144 | of the last 256 faults the queue has every one still inside the hour |
| RejectWindow.CutoffIsHour | src/stats.rs:122-126 | the cutoff is the last hour except for time zero |
| RoundWork.RunConserves | src/stats.rs:868-951 | at every moment round work, stored work and work in hand are the loaded work plus all credits |
| RoundWork.QuietConserves | src/stats.rs:868-951 | at quiescence nothing is in hand |
| RoundWork.QuietBestIsMax | src/stats.rs:885-914 | at quiescence both bests are the maximum of what they started from and all submitted difficulties |
| RoundWork.RunDistinct | src/stats.rs:925-951 | while no two calls for one hash have been past their check at once, found hashes are distinct |
| RoundWork.QuietDistinctIff | src/stats.rs:925-951 | a run that comes to rest has distinct hashes exactly when that never happened |
| RoundWork.QuietCounts | src/stats.rs:941-946 | at rest the counter has moved by the number of blocks listed |
| RoundWork.ShareAlone | src/stats.rs:868-914 | undisturbed, a share adds its credited work and raises both bests |
| RoundWork.FoundAlone | src/stats.rs:925-951 | undisturbed, a new block closes the round and is counted and listed with its work; a listed one changes nothing |
| RoundWork.LeftFalls | src/stats.rs:868-951 | from any moment an undisturbed call is over within six operations |
| RoundWork.RunListsIff | src/stats.rs:925-951 | in every interleaving a block is listed or on its way exactly when it was listed at the start or reported since |
| RoundWork.QuietListsIff | src/stats.rs:925-951 | at rest it is listed exactly then |
| RoundWork.OverlapListsTwice | src/stats.rs:928-946 | from any start a run with two such calls ends with the block listed twice |
| LineReader.Connection.ReadLineBounded | src/network/session.rs:392-434 | for every chunking, the first line, end of stream, a refusal only of a raw line over the bound, or a cancellation that loses no byte |
| LineReader.Connection.Serve | src/network/session.rs:210-223 | with any pattern of cancelled reads the lines are the stream's newline split, complete at end of stream, none over the bound |
| LineReader.ChunkFollows | src/network/session.rs:397-433 | one turn of the loop keeps to the stream |
| LineReader.LinesOfFramed | src/network/session.rs:409-432 | the lines undo any framing with newlines or carriage return and newline, an unterminated end included |
| LineReader.ThreeCases | src/network/session.rs:409-432 | every line is within the bound raw, over it stripped, or exactly max + 1 bytes ending in CR |
| LineReader.BorderlineDependsOnChunks | src/network/session.rs:409-432 | every line of the third kind is taken under one chunking and refused under another |
| RateLimiter.ConnectionRateLimiter.CheckAndRecord | src/security/mod.rs:127-154 | overlapping calls included, in instants: allowed only with fewer than the limit of the address's admissions less than 60 seconds old, refused only at it or for a new address with max_tracked others active; over no 60 seconds does the log hold more than the limit of one address |
| RateLimiter.ConnectionRateLimiter.Prune | src/security/mod.rs:160-166 | pruning keeps log and later decisions |
| RateLimiter.AdmitLimited | src/security/mod.rs:142-153 | an admission below the limit keeps every window of every address within it |
| RateLimiter.LimitedIff | src/security/mod.rs:142-153 | the limit is one on the number of log entries of an address in each 60 seconds |
| RateLimiter.PruneTracks | src/security/mod.rs:160-166 | a pruned limiter counts what the full log counts |
| RateLimiter.PrunedAreActive | src/security/mod.rs:133-141 | after pruning every tracked address was admitted within the minute |
| Sv2Session.Sv2Session.AssignJobId | src/protocol/sv2/mod.rs:140-151 | ids 1 to 2^32 - 1 in turn, the last sixteen retained |
| Sv2Session.RetainedDistinct | src/protocol/sv2/mod.rs:140-151 | retained ids are distinct and non-zero |
| Sv2Session.ResolvesIff | src/protocol/sv2/mod.rs:153-158 | an id resolves to its own job exactly while fewer than sixteen were sent after it |
| Sv2Session.Sv2Session.EngineJobId | src/protocol/sv2/mod.rs:153-158 | in a session's own terms: the id of a job sent leads to it while it is among the last sixteen |
| Sv2Session.KeptJobResolves | src/protocol/sv2/mod.rs:697-701 | a job the engine still keeps, with only newer jobs sent after it, resolves, and the engine finds that job |
| Sv2Session.Sv2Session.OpenExtended | src/protocol/sv2/mod.rs:546-585 | refused without a trace, or granted with prefix and grant filling the reserved width |
| Sv2Session.Sv2Session.SubmittedCoinbase | src/protocol/sv2/mod.rs:671-693 | a length-checked submit is always spliced, never the zeroed template |
| Sv2Session.ExtranonceValue | src/network/session.rs:979-991 | the prefix has the asked width and the counter's low bytes |
| Sv2Session.PrefixesCollideIff | src/network/session.rs:979-991 | two prefixes of one width are equal exactly when the counters agree modulo 256^min(width, 8) |
| Sv2Session.PrefixOpensIff | src/network/session.rs:979-991 | of two prefixes of any widths the narrower opens the wider exactly when its bytes are the wider one's leading bytes |
| Sv2Session.SpacesMeetIff | src/protocol/sv2/mod.rs:581-585 | two sessions' search spaces meet exactly then |

## Left out

- SHA-256, address parsing and hexadecimal: the hash is any function, an address or commitment is its script or a parse failure, hex strings are their bytes.
- The `bitcoin` crate's serializer: the coinbase layout is written out, and a reader of transactions with one input and no witness data checks it.
- f64 rounding: vardiff is over the reals with a square root known by its square; round work is a natural number, exact in an f64 up to 2^53.
- RoundWork.RunConserves: a run is a sequence of atomic operations; effects of relaxed ordering across different atomics are not modelled.
- FoundBlock.CreditedAtMostOnce: a hash is found again only once its earlier tasks are over, the list of found blocks survives a crash, and a file cut short by a crash is not accepted by the node.
- ShareCheck.MineTemplate: not for a height whose push spells the sentinel, which none below 2^31 does; there the code builds a wrong coinbase.
- JobHistory.SupersededIff: appends in the order of the current-job updates; `JobHistory.AnyOrderLookup` with `JobHistory.ReplaceFlags` covers any other.
- JobHistory.NoDeadTip: no refresh in flight; JobHistory.LiveTipIff covers every other moment.
- Sessions.RunCounts: each collector operation, the scan of one worker and the removal of one worker from all maps are atomic.
- ShareHandoff.WindowsSeeTheFullLog: one session at a time per worker, no return between scan and removal, no stats store, one clock for instants and Unix seconds.
- RateLimiter.ConnectionRateLimiter.CheckAndRecord: admissions in the order of their clock readings.
- LineReader.Connection.Serve: I/O errors, timeouts and the UTF-8 check of a finished line are not modelled.
- RejectWindow.RejectWindow.Summary: events and queries in time order.
- SQLite persistence: not part of this model; runs start from loaded values where it matters.
- Hashrate estimates and their decay: one division of what WorkInWindow returns.
- Archive file names and permanent-reject classification: string matching, easy members.
- Bans, per-session token bucket, worker-name rules, configure and subscribe handlers: easy members.
- RPC, ZMQ, Noise, message codecs, dashboard, metrics, config parsing: transport and presentation.
