# Verified model of the Palette relayer

The relayer carries cross-chain transfers between the Palette chain and the Poly chain. It keeps its progress in a
small bolt database and is driven by loops that run concurrently. This project models

- **the Palette-to-Poly pipeline** (`Pipeline.dfy`): a step system with the header loop, the deposit loop, the check
  loop, the Poly chain, other relayers, crashes and restarts. Every database call and every remote call is one step.
  The theorems about its runs are in `Positions.dfy` (where the loops stand), `Epochs.dfy` (what Poly knows of the
  validators), `Sweep.dfy` (which blocks are handled, and what becomes of their events), `Conservation.dfy` (no stored
  transfer is lost) and `Origins.dfy` (nothing is submitted that Palette did not emit); `LosingRun.dfy` and `Witnesses.dfy` hold concrete runs at which a promise fails;
- **the Palette manager as an object** (`PaletteManager.dfy`): the methods of the Go type over its own fields, its
  slices and its database. Each method extends a ghost trace that is a run of the step system, with the same writes in
  the same order, and keeps the hypotheses of conservation along that trace as long as the replies it gets are truthful
  and no put fails, so that conservation holds of the object's own buckets (`Rounds.ObjectKeeps`);
- **rounds in sequence** (`Rounds.dfy`): which entries each round of the deposit loop or the checker reads, and how the
  buckets drain;
- **the database** (`BoltDb.dfy`): buckets in key order, bounded reads, saved heights;
- **the Poly manager** (`PolyManager.dfy`, `PolyRuns.dfy`): the resumable height scan that feeds the senders;
- **delivery** (`Delivery.dfy`): a step system of that scan, the channels, the senders' calls, crashes and restarts,
  with what becomes of every deposit;
- **the nonce allocator** (`Nonce.dfy`) and **the concurrent senders** that share it (`Senders.dfy`);
- **the codecs and rules** they rely on: the byte cursor (`ZeroCopy.dfy`), the transfer record (`CrossTransfer.dfy`), the
  mapping-slot key (`MappingKey.dfy`), the audit path (`AuditPath.dfy`), the keeper list (`Keepers.dfy`), signatures and
  quorums (`Quorum.dfy`), and the orders used for sorting (`Order.dfy`, `Checksum.dfy`).

Remote calls, clocks and random choices are parameters: replies that may fail or carry any value the caller could
see. Go strings are byte sequences. A failed read is a `None`, an ignored error is a `fault` flag.

## Hypotheses, and where the code falls short

The theorems about runs name what they take for granted, as predicates on steps (`Pipeline.Honest`, `Pipeline.Landed`,
`Pipeline.PutsSucceed`, `Pipeline.NoRace`, `Sweep.Resumes`, `Sweep.QueriesSucceed`, `Senders.NoWrap`,
`PolyRuns.EndsBelow`, `PolyRuns.RightHeaders`, `Origins.Tells`, `Delivery.Fair`, `Delivery.NoGap`). Where a promise fails
without its hypothesis, the exact condition is proved, mostly next to a run or an input that fails:

- The checker may put an entry back between the deposit loop's `PutCheck` and `DeleteRetry` of the same hash; the entry
  is then lost unless a second copy exists (`Conservation.RaceExact`, `LosingRun.TransferLost`).
- Both movers delete after a failed put, which is only logged (`Conservation.FailedPutExact`,
  `LosingRun.LostByFailedPut`, `LosingRun.LostByFailedPutBack`).
- `commitHeader` waits for its transaction to be in a block, not for its success. Poly's epochs cover every compared
  block at all times exactly if no confirmed header was above Poly's epoch (`Epochs.CoverageExact`); otherwise a proof
  can run ahead of the epoch it needs (`Witnesses.ProofAheadOfEpoch`).
- Below the safe distance the guard's subtraction wraps and lets young transfers through (`Positions.SafeDistanceExact`,
  `Witnesses.ProofTooEarly`).
- `commitProof` states its height in 32 bits (`Epochs.ProofsBehindEpochs`, last clause on the height;
  `LosingRun.HeightCut`).
- A block whose event query fails, or whose event iterator stops on an error, counts as handled: its unread events are
  lost unless they are kept already (`Sweep.PassExact`, `Witnesses.EventLost`).
- A start with nothing saved begins at Poly's epoch; if another relayer sent that epoch, the blocks below it are skipped
  (`Sweep.NoBlockSkipped`, `Witnesses.SkippedStart`).
- Only the first 1000 Retry keys are read per round, so 1000 entries that never leave block all others; likewise 1000
  hashes without an event keep the checker from any later one (`Rounds.ReadExact`, `Rounds.CrowdBlocks`,
  `Rounds.CheckBlocks`).
- A nonce is stranded when gas estimation fails, since the call leaves before its nonce would be given back
  (`Senders.StrandedForGood`, `Senders.FirstStranded`); a nonce given back twice is handed out twice
  (`Nonce.DoubleReturnSharesNonce`).
- Poly's scan passes a notification for good when its proof cannot be fetched (`PolyRuns.RunExact`,
  `PolyRuns.DepositMissed`).
- A handled height only means that its deposits were put into channels of the process: a failed call drops its deposit,
  and a crash drops whatever was unsent below the height at which the next process begins, although no height is
  skipped (`Delivery.DepositsAccounted`, `Delivery.CrashExact`, `Delivery.DepositDropped`).
- A tick that sees chain height 1 has no end to its work (`PolyRuns.HeightOne`).
- Poly's saved height can fall back by one after a restart, but not once a tick has saved (`PolyRuns.SavedStepsBack`,
  `PolyRuns.SavedNeverFalls`), and wraps at height 0 (`PolyRuns.SavedWraps`).
- The audit-path parser counts steps by 32 bytes although a step takes 33 (`AuditPath.PrintParse`).
- `EncodeBigInt` looks at the low 64 bits only, so ids that are multiples of 2^64 share the slot of id 0
  (`MappingKey.SlotPreimageExact`, `MappingKey.CollapsedIds`).
- `RecoverSignersFromMultiSigs` takes the last 20 bytes of a recovered key for its address. Signatures of listed keys
  are then judged as they should be exactly if those tails name keepers, each a different one (`Quorum.TailsExact`,
  `Quorum.QuorumRefused`).

## Model

| member | source | states |
|---|---|---|
| `Epochs.StepKeeps` | manager/palette.go:226-366 | every step of every loop, of Poly, of other relayers and of a crash or restart keeps the epoch invariant: Poly's log is exact up to its tip, every header in flight is obsolete or the next change, no handled or saved block lies beyond an unknown change, the running loop's last epoch agrees with Poly |
| `Epochs.EpochLogExact` | manager/palette.go:226-374 | over every run from a fresh installation in which each confirmed header was executed or obsolete, Poly's epochs are exactly the change points of the validator set, defined by comparing neighbouring blocks, in order, once each, up to wherever the loop has compared |
| `Epochs.EpochsNameBlocks` | manager/palette.go:226-374 | the validators of any height handled so far, by this process or an earlier one, and of any height the loop has compared, are those of the latest accepted epoch at or below it |
| `Epochs.CoverageExact` | manager/palette.go:324-345 | over every run with failing header transactions, crashes and restarts: Poly's epochs name the validators of every compared block at all times exactly if no header was taken for confirmed that lies above Poly's epoch |
| `Epochs.ProofsBehindEpochs` | manager/palette.go:191-204 | whenever a proof for `safe` is submitted, Poly already holds every validator-set change at or below `safe`, and its epoch there names that block's validators; `safe` is the deposit cursor less one and at most the header cursor less two; the height stated in 32 bits is `safe` exactly below 2^32 |
| `Witnesses.ProofAheadOfEpoch` | manager/palette.go:324-345 | a run in which only a header transaction fails on Poly, and a proof for that header's block is submitted without Poly knowing its validators |
| `Positions.StepKeeps` | manager/palette.go:136-204 | in every run, whatever fails: the deposit cursor stays behind the header cursor while a round is open, a header at hand is that of the block at the cursor, and each proof records a guard that let it through |
| `Positions.SafeDistanceExact` | manager/palette.go:431-451 | in every run, a submitted proof keeps max(6, BlockConfig) blocks from its transfer exactly when the deposit cursor is at least that distance, and two blocks from the header cursor |
| `Witnesses.ProofTooEarly` | manager/palette.go:435-441 | a run without any fault in which a proof is submitted one block after its transfer at distance 6 |
| `Sweep.NoBlockSkipped` | manager/palette.go:136-189 | after any faults, crashes, restarts and forced heights, every block from the starting epoch up to the cursor of a running process has been handled, as long as no start with nothing saved begins at an epoch that this relayer did not send; exactly then, if saves succeed |
| `Sweep.AloneSkipsNothing` | manager/palette.go:136-189 | without other relayers no block is ever skipped |
| `Sweep.ForcedStart` | manager/palette.go:132-158 | the promised reset: after a start with a forced height below where it would begin otherwise, every height from there up to the cursor has been compared and its events queried again by that process, for as long as it lives; any other forced height changes nothing |
| `Witnesses.SkippedStart` | manager/palette.go:145-154 | a first start behind another relayer's epoch skips a block and its transfer |
| `Sweep.AllEventsKept` | manager/palette.go:226-243 | if event queries are answered in full, every event of every block from the starting epoch up to the cursor is in Retry, in Check, or done on Poly |
| `Sweep.PassExact` | manager/palette.go:239-242 | after one pass over a block, which counts as handled in any case, all its events are kept or done exactly if those left unread were so already |
| `Witnesses.EventLost` | manager/palette.go:239-242 | two runs, in which only one event query fails, or only one event iterator stops on an error, and the transfer is nowhere after the next block and a restart |
| `Conservation.StepKeeps` | manager/palette.go:379-576 | every step of the three loops, of Poly and of a crash keeps the conservation invariant |
| `Conservation.NoTransferLost` | manager/palette.go:418-477 | an entry ever put into Retry is in Retry, in Check, or done on Poly, in every interleaving and across any crashes |
| `Conservation.EventsKept` | manager/palette.go:379-415 | every event of a block whose events were all read is in Retry, in Check, or done on Poly at any later time |
| `Conservation.RaceExact` | manager/palette.go:468-473 | of the three orders of the remaining steps of a race, one keeps the entry, the two others keep it exactly if it is done or held in Check under another hash |
| `Conservation.FailedPutExact` | manager/palette.go:562-571 | after a failed put and the deletion that follows, the entry survives exactly if it is done or held elsewhere |
| `Conservation.RefetchChangesNothing` | manager/palette.go:407-412 | storing an event that is already in Retry leaves the database unchanged |
| `Origins.StepKeeps` | manager/palette.go:379-576 | every step of every loop, of Poly and of a crash keeps: whatever is in a bucket, under way, submitted or known to Poly as an import was emitted by Palette in some block |
| `Origins.NothingInvented` | manager/palette.go:418-542 | every submission of every run is one event's of some block: it carries that event's payload, asks for Solidity's slot of that event's id exactly in the domain of `MappingKey.SlotPreimageExact`, and from cursor `distance` on states a height at least that far above the block |
| `LosingRun.TransferLost` | manager/palette.go:562-571 | a concrete run from a fresh installation, honest and with all puts succeeding, in which a stored transfer ends up nowhere |
| `LosingRun.LostByFailedPut` | manager/palette.go:468-473 | a concrete run without a race in which one put fails and the stored transfer ends up nowhere |
| `LosingRun.LostByFailedPutBack` | manager/palette.go:562-571 | the same for the checker: its put back into Retry fails, and the transfer ends up nowhere |
| `LosingRun.HeightCut` | manager/palette.go:451-455 | a run without any fault in which the height stated to Poly is not the proof's, from block 2^32 on |
| `PaletteManager.PaletteManager.IsEpoch` | manager/palette.go:348-366 | false exactly if the two validator lists are equal as multisets; the in-place sorts keep both multisets even when the lists are one slice |
| `PaletteManager.PaletteManager.FetchBlockHeader` | manager/palette.go:247-283 | succeeds exactly if the header is cached by height or fetched; a header with the cached raw bytes does not replace the cached one |
| `PaletteManager.PaletteManager.CommitHeader` | manager/palette.go:312-346 | an error reply keeps the last epoch; otherwise it becomes the current header, sharing its slice, whether or not Poly executed it |
| `PaletteManager.PaletteManager.CompareHeader` | manager/palette.go:226-237 | the block goes on exactly if its height is not above the last epoch's, or its header is at hand and the validators are the same or Poly took the header; the last epoch has then moved to this block exactly if its validators differ |
| `PaletteManager.PaletteManager.FetchLockEvents` | manager/palette.go:379-415 | a failed query stores nothing; otherwise Retry holds, for each event that is for a target contract, not done on Poly and put without fault, a key that decodes to that event's payload, transaction hash, low 32 bits of the target chain and the block's height, and whose index leads to Solidity's slot; every key that is new is such a key; the block counts as read in full only if the iterator did not stop on an error |
| `PaletteManager.AfterStoreKeys` | manager/palette.go:395-413 | a key is in Retry afterwards exactly if it was before or belongs to a targeted event that is not done and was put without fault |
| `PaletteManager.EventsStored` | manager/palette.go:395-413 | what a block's events leave in Retry, on the events' own fields and those that the keys decode to, in both directions |
| `PaletteManager.PassedHeld` | manager/palette.go:163-189 | after a tick, every event that was due in one of the blocks passed is in Retry under a key that holds its fields |
| `PaletteManager.PaletteManager.HandleNewBlock` | manager/palette.go:174-182 | false keeps cursor, saved height and Retry; true advances the cursor by one and saves the handled height unless the save fails, whether or not the event query succeeded |
| `PaletteManager.PaletteManager.MonitorChain` | manager/palette.go:163-189 | a tick moves the cursor forward only and never beyond the node height, and goes on to it unless the process ends; if every header comes and is taken, every attempt passes a block; the blocks passed are consecutive, each with a reply of its own, and Retry is exactly what they leave in their order; exactly those heights are newly handled, and newly read in full if every reply was; the last of them is the height saved; truthful replies without failing puts keep the hypotheses of conservation |
| `PaletteManager.PaletteManager.HandleDepositEvents` | manager/palette.go:418-477 | of the first 1000 entries of Retry exactly those leave that are ready, have a proof, were taken by Poly or are done there, and whose delete succeeds; Check gains exactly the hashes that Poly gave for such entries and whose put succeeds, each with the last entry taken under it; nothing else changes in either bucket, and the cursor moves on in every case |
| `PaletteManager.RoundDeposits` | manager/palette.go:424-475 | the same of the entry-by-entry specification of a round, by the place of each entry and the fields of its reply |
| `PaletteManager.AfterChecksKeys` | manager/palette.go:466-471 | a hash is in Check after a round exactly if it was before or an entry was taken under it without fault; under other hashes nothing changes |
| `PaletteManager.AfterChecksValue` | manager/palette.go:466-471 | a hash gained holds the last entry taken under it |
| `PaletteManager.PaletteManager.HandleEntry` | manager/palette.go:424-502 | on the reply's fields: an entry leaves Retry exactly if it is ready, its proof was fetched, Poly took it or says that it is done, and the delete succeeds; it enters Check exactly if Poly took it and the put succeeds; what is submitted is its decoded payload with the slot of its index, one block behind the cursor, and that height cut to 32 bits; the put comes before the deletion in the trace |
| `PaletteManager.PaletteManager.Decided` | manager/palette.go:425-440 | an entry goes on exactly if it decodes and its height is below the cursor less the distance, or, below the distance, below that number plus 2^64 |
| `PaletteManager.PaletteManager.CheckLockEvents` | manager/palette.go:546-576 | whatever the map order: of the first 1000 hashes exactly those leave Check whose event Poly has, whatever its state, and whose delete succeeds; Retry gains exactly the entries of those whose state is not 1 and whose put succeeds; all else stays as it was |
| `PaletteManager.RoundChecks` | manager/palette.go:546-576 | the same of the map-wise specification of a check round, by the place of each hash and the fields of its reply |
| `PaletteManager.PaletteManager.Init` | manager/palette.go:136-158 | fails exactly if one of the two reads does; a forced height that is not 0 and lies below the saved height (the epoch if none is saved) is where both cursors start, and any other leaves them there; Poly may move on between the reads, and the validators are then those of the later epoch |
| `PaletteManager.BatchSameWork` | db/db.go:149-169 | the hex-keyed map the checker walks holds the same entries as the raw-keyed batch |
| `Rounds.ReadExact` | manager/palette.go:418-577 | over any rounds of the deposit loop or the checker with any replies: an entry still in its bucket is read next exactly if its position less the number of entries before it that have left is below 1000, and leaves exactly if it is read and its reply lets it |
| `Rounds.ReadLeaves` | manager/palette.go:418-577 | over any rounds, on the reply's fields: an entry read from Retry is gone after the round exactly if it is ready, has a proof, was taken or is done, and is deleted without fault; a hash read from Check exactly if Poly has an event for it, succeeded or failed, and it is deleted without fault |
| `Rounds.DepositRoundIs` | manager/palette.go:418-477 | such a round over Retry leaves exactly what the deposit loop leaves |
| `Rounds.CheckRoundIs` | manager/palette.go:546-577 | such a round over Check leaves exactly what the checker leaves |
| `Rounds.Drain` | db/db.go:171-191 | with every submission succeeding, k rounds take exactly the first 1000k entries, and Retry is empty exactly from ceil(n/1000) rounds on |
| `Rounds.ChecksDrain` | manager/palette.go:546-577 | while Poly has an event for every hash and no delete fails, k check rounds take exactly the first 1000k hashes, successes like failures |
| `Rounds.HeadOfLine` | db/db.go:171-191 | while the first 1000 entries are refused, no entry behind them is ever read, whatever the replies for it |
| `Rounds.CrowdBlocks` | db/db.go:171-191 | 1000 refused transfers hold up a ready one behind them for any number of rounds |
| `Rounds.CheckBlocks` | manager/palette.go:546-577 | behind 1000 hashes that never get an event a failed submission is never looked at, so that its transfer never returns to Retry |
| `Rounds.ObjectKeeps` | manager/palette.go:63-81 | conservation stated of the manager's own buckets, for a trace that its methods keep clean |
| `BoltDb.Put` | db/db.go:127-136 | a put keeps the key order and updates exactly its key |
| `BoltDb.Delete` | db/db.go:138-147 | a delete keeps the key order and removes exactly its key |
| `BoltDb.PutSame` | db/db.go:127-136 | putting a key with the value it has changes nothing |
| `BoltDb.BatchAt` | db/db.go:149-191 | an entry is among those read exactly if fewer than 1000 stand before it |
| `BoltDb.BoltDB.PutCheck` | db/db.go:97-110 | stores under the decoded hash, and fails exactly on a fault or a hash that is not hex |
| `BoltDb.BoltDB.DeleteCheck` | db/db.go:112-125 | removes the decoded hash, and fails exactly on a fault or a hash that is not hex |
| `BoltDb.BoltDB.PutRetry` | db/db.go:127-136 | stores the key with the constant value, or nothing on a fault |
| `BoltDb.BoltDB.DeleteRetry` | db/db.go:138-147 | removes the key, or nothing on a fault |
| `BoltDb.BoltDB.GetAllRetry` | db/db.go:171-191 | the first min(n, 1000) keys in byte order, and no error on overflow |
| `BoltDb.BoltDB.GetAllCheck` | db/db.go:149-169 | the first min(n, 1000) entries in byte order under their hex text |
| `BoltDb.BoltDB.UpdatePolyHeight` | db/db.go:193-204 | the height saved is the height read back |
| `BoltDb.BoltDB.GetPolyHeight` | db/db.go:206-221 | the saved height, 0 where none was saved |
| `BoltDb.BoltDB.UpdatePaletteHeight` | db/db.go:223-234 | the height saved is the height read back |
| `BoltDb.BoltDB.GetPaletteHeight` | db/db.go:236-250 | the saved height, 0 where none was saved |
| `PolyManager.PolyManager.constructor` | manager/poly.go:136-157 | the cursor starts at the flag, else at the larger of saved height and epoch |
| `PolyManager.PolyManager.SelectNotify` | manager/poly.go:246-275 | a notification yields a deposit exactly if its contract is the entrance, it has six states or more, says "makeProof", is for this side chain, its proof was fetched, and the value at the front of its path (nothing, if the parser rejects it) is accepted |
| `PolyManager.PolyManager.HandleDepositEvents` | manager/poly.go:207-288 | how an attempt ends, case by case on the answers: no header or no keeper comparison, a missing Merkle proof, no events, and a failed bookkeeper change of a current block with nothing enqueued, which fails the attempt; only a successful attempt enqueues, and exactly the block's deposits in order |
| `PolyManager.PolyManager.CommitDeposit` | manager/poly.go:374-420 | what the contract is called with; the anchor's signatures go along exactly if there is an anchor and its proof is not empty |
| `PolyManager.PolyManager.MonitorChain` | manager/poly.go:159-194 | one tick is the specification's tick, with its uint32 wrap-around and the point where the process dies; without a chain height nothing changes, and a failed save leaves the saved height |
| `PolyRuns.ExactlyOnce` | manager/poly.go:179-184 | over any sequence of ticks the successful attempts are at start, start+1, ... below the cursor, and the queue is their deposits in that order |
| `PolyRuns.QueueProper` | manager/poly.go:243-280 | over any ticks, every deposit handed on passed the four filters, had its proof fetched, and goes along with the headers, the Merkle proof and the signatures that the answers of its own height prescribe |
| `PolyRuns.KeepersCommitted` | manager/poly.go:282-285 | over any ticks, a handled height for which nothing was enqueued and whose header changes the keepers above Palette's epoch had the change committed |
| `PolyRuns.UncommittedStays` | manager/poly.go:179-188 | where that commit fails, cursor and queue stay, the scan ends, and the height below is saved |
| `PolyRuns.TickReaches` | manager/poly.go:159-188 | a tick handles nothing above the chain's height less two, and ends right behind it and saves it if every attempt succeeds and the process lives |
| `PolyRuns.DepositsExact` | manager/poly.go:243-280 | a handled block enqueues all it should exactly if no proof fetch failed for a notification that leads to a deposit |
| `PolyRuns.RunExact` | manager/poly.go:159-288 | a whole run enqueues all that was due, in order, exactly if no such fetch failed on the way |
| `PolyRuns.DepositMissed` | manager/poly.go:337-341 | a tick that handles and saves a block whose one deposit is not enqueued, because its proof could not be fetched |
| `PolyRuns.HeightOne` | manager/poly.go:171-184 | at chain height 1 a scan whose attempts succeed never ends: it wraps around to height 0, handles heights again, and saves nothing |
| `PolyRuns.SavedHeight` | manager/poly.go:171-188 | a working tick saves the cursor less one, which is a step back exactly if the cursor has not passed the saved height |
| `PolyRuns.SavedStepsBack` | manager/poly.go:179-188 | a restart at the saved height whose first attempt fails saves one less |
| `PolyRuns.SavedNeverFalls` | manager/poly.go:159-194 | over a whole run, once a tick has saved, the saved height never falls again and stays below the cursor |
| `PolyRuns.SavedWraps` | manager/poly.go:186-188 | from height 0 a failed attempt saves 2^32 - 1, and a restart begins there |
| `PolyRuns.RestartExact` | manager/poly.go:136-157 | from every state a run can reach, also a process that died during a scan: a restart skips no height that was not handed to the senders exactly if it begins at or below the old cursor, which without a flag is exactly if the epoch does |
| `PolyRuns.SignerExact` | manager/poly.go:216-235 | over any ticks: the header that signs a deposit is that of the root of the fetched Merkle proof (the height above the epoch, or two above the block for a current keeper change) exactly if this anchor came and the proof is not empty, and otherwise the one above the block; short of 2^32 it lies above the epoch exactly if the block's header does or the anchor signs |
| `Delivery.StepKeeps` | manager/poly.go:159-536 | every step of the scan, the senders, a crash or a restart keeps: an offered deposit is pending once, delivered, failed or dropped, and whatever the running process has passed was offered by it |
| `Delivery.DepositsAccounted` | manager/poly.go:159-456 | over every interleaving and any restarts without a gap, each deposit due below the cursor is in a channel, in a call, sent, found on Palette, or lost; lost exactly if its last offer failed, or it was unsent at a crash and lies below the height where the running process began |
| `Delivery.CrashExact` | manager/poly.go:136-188 | of the deposits unsent at a crash, those below the restart height stay lost for as long as the next process lives, and all others are offered again |
| `Delivery.LostForGood` | manager/poly.go:436-447 | what is lost below the cursor stays lost, whatever a process without a restart does |
| `Delivery.DepositDropped` | manager/poly.go:171-188 | a run without a gap or a failed call in which a crash loses a deposit of a handled and saved height |
| `Delivery.TickIsRun` | manager/poly.go:159-288 | every tick of the manager is a run of the delivery system, with the same cursor, saved height and death, and the same deposits handed on in the same order |
| `Nonce.NonceManager.UseNonce` | utils/nonce/nonce.go:46-72 | the head of the account's free list if there is one; else its counter, or the pending nonce, or 0 where the chain cannot be asked, and the counter moves to the next number on uint64; nothing else changes |
| `Nonce.NonceManager.ReturnNonce` | utils/nonce/nonce.go:74-88 | the free list gains exactly this nonce and is sorted; nothing else changes |
| `Nonce.UseIsLeast` | utils/nonce/nonce.go:46-72 | the nonce handed out is the least one from the base on that is not issued |
| `Nonce.UseRefines` | utils/nonce/nonce.go:46-72 | a use keeps the partition of [base, counter) into free and issued exactly if the counter does not wrap, and leaves other addresses alone |
| `Nonce.ReturnRefines` | utils/nonce/nonce.go:74-88 | a return keeps the partition exactly if the nonce is currently issued to that address, and leaves other addresses alone |
| `Nonce.RunRefines` | utils/nonce/nonce.go:46-88 | over every lawful run and any number of addresses the allocator answers like the set specification |
| `Nonce.DoubleReturnSharesNonce` | utils/nonce/nonce.go:74-88 | a nonce given back twice goes to two later calls |
| `Senders.StepKeeps` | manager/poly.go:478-536 | every step of every call keeps: issued nonces are exactly those in flight, sent or stranded, each held once |
| `Senders.NonceAccounting` | manager/poly.go:478-536 | in every interleaving no two live or sent transactions share a nonce of one account, and [base, counter) is the disjoint union of free, in flight, sent and stranded |
| `Senders.StrandedForGood` | manager/poly.go:490-494 | over any continuation of a run, a nonce stranded by a failed estimate is never in flight, sent, or handed out again |
| `Senders.FirstStranded` | manager/poly.go:490-494 | a run of one call whose estimate fails, which strands the first nonce |
| `Senders.SendTxToPalette` | manager/poly.go:478-536 | a real call is one run of the step system and leaves the allocator as that run says; it is sent exactly if every answer is good, a failed estimate strands its nonce, and a later failure gives it back |
| `CrossTransfer.RoundTrip` | manager/types.go:25-60 | decoding an encoding in front of any suffix gives the record and stops at the suffix |
| `CrossTransfer.EncodeInjective` | manager/types.go:25-31 | distinct transfers have distinct keys |
| `CrossTransfer.PrefixRejected` | manager/types.go:33-60 | every proper prefix of an encoding is rejected |
| `CrossTransfer.EventKeys` | manager/utils.go:216-233 | two events share a key exactly if they agree on height, transaction, payload, the low 32 bits of the target chain and the hex index; which field goes where is said by `CrossTransfer.KeyHolds` |
| `CrossTransfer.KeyHolds` | manager/utils.go:216-233 | the key of an event decodes to its payload as value, its transaction hash as id, the low 32 bits of its target chain and the height; the preimage made from the index is Solidity's for the event's id exactly if that is 0 or its low 64 bits are not all zero |
| `CrossTransfer.EncodedBytes` | manager/types.go:25-31 | the bytes of a key: the three strings behind their lengths, in this order, then the chain in four bytes and the height in eight, the lowest first |
| `CrossTransfer.SampleKey` | manager/palette_test.go:168 | the literal bytes of a record shaped as the repository's sample |
| `CrossTransfer.Serialization` | manager/types.go:25-31 | appends the encoding to the sink |
| `CrossTransfer.Deserialize` | manager/utils.go:235-243 | the record at the start of the bytes, or an error where a field runs out |
| `MappingKey.SlotPreimageExact` | manager/utils.go:280-305 | for an id of at most 32 bytes the hashed preimage is Solidity's exactly if the id is 0 or its low 64 bits are not all zero |
| `MappingKey.SlotPreimageInjective` | manager/utils.go:280-305 | ids in that domain share a preimage exactly if they are the same number |
| `MappingKey.CollapsedIds` | utils/common/common.go:20-25 | 2^64 and 0 share a preimage |
| `MappingKey.LeftPadBytes` | manager/utils.go:298-305 | zeros in front up to the length, longer input unchanged |
| `MappingKey.HexEncodeAt` | utils/common/common.go:20-25 | each byte becomes two digits of "0123456789abcdef", the high one first |
| `MappingKey.DigitExact` | manager/utils.go:284-296 | exactly these digits are read, the letters also in upper case |
| `MappingKey.FromBigEndianAt` | manager/utils.go:220-221 | the bytes of an id are read with the highest first |
| `ZeroCopy.LittleEndianAt` | manager/types.go:25-31 | the byte at place i of an integer is n / 256^i mod 256 |
| `ZeroCopy.VarUintBytes` | manager/palette_test.go:168 | the length in front of a string, byte by byte: one byte below 0xFD, else the tags 0xFD, 0xFE and 0xFF and two, four or eight bytes |
| `Order.LessExact` | db/db.go:171-191 | keys are ordered by a proper prefix or the first byte that differs |
| `AuditPath.ParseAuditPath` | utils/common/common.go:28-55 | with R bytes behind the value, succeeds exactly if R div 32 <= R mod 32, with R div 32 steps read in place |
| `AuditPath.PrintParse` | utils/common/common.go:28-55 | printing then parsing is the identity below 32 steps, and every canonical path of 32 or more is rejected |
| `AuditPath.StrayTailAccepted` | utils/common/common.go:35-38 | up to 31 stray bytes behind the value are accepted as no steps |
| `AuditPath.ParsedAt` | utils/common/common.go:35-52 | behind the value each 33 bytes are a direction and its hash; there are as many steps as 32 goes into the rest, and none are accepted if its remainder is smaller than that |
| `AuditPath.LongValue` | utils/common/common.go:28-34 | a value of 300 bytes behind FD 2C 01 is read |
| `Keepers.DeserializeKeepers` | utils/poly/poly.go:92-108 | the addresses read one by one, running on silently past the end of the input |
| `Keepers.RoundTrip` | utils/poly/poly.go:92-108 | decoding an encoded keeper list gives the same addresses in the same order |
| `Keepers.EncodeInjective` | manager/utils.go:204-213 | equal encodings come from equal lists |
| `Keepers.EncodeAt` | manager/utils.go:204-213 | the bytes of a keeper list: the count in eight bytes, the lowest first, then each address behind the byte 20 |
| `Keepers.NothingBehind` | utils/poly/poly.go:92-108 | a count with nothing behind it yields that many zero addresses |
| `Keepers.JoinBehind` | manager/utils.go:204-213 | the raw keys stand one behind the other in their order |
| `Keepers.AssemblePubKeyList` | manager/utils.go:196-214 | the sink encodes, and the raw list joins, the peers' keys in their sorted order |
| `Keepers.EpochBytesExact` | manager/poly.go:307-312 | the byte comparison is equality of the keepers as multisets |
| `Quorum.AssembleHeaderSigs` | manager/utils.go:166-175 | the converted signatures joined in order |
| `Quorum.RawMultiSigsToList` | utils/poly/poly.go:50-71 | refuses exactly the empty buffer and lengths that are no multiple of 65; otherwise 65-byte pieces that join to the input |
| `Quorum.JoinInjective` | utils/poly/poly.go:50-71 | a buffer of 65-byte signatures splits in only one way |
| `Quorum.JoinAt` | manager/utils.go:166-175 | signature i stands at byte 65i of the buffer |
| `Quorum.RecoverSigners` | utils/poly/poly.go:73-90 | succeeds exactly if every recovery does, with one signer per signature |
| `Quorum.ContainsMAddress` | utils/poly/poly.go:115-133 | accepts exactly if at least m keeper positions hold a signer |
| `Quorum.CountIsSigned` | utils/poly/poly.go:115-133 | for distinct keepers the count is the number of keepers that signed, repeated signers counting once |
| `Quorum.VerifySig` | utils/poly/poly.go:32-48 | accepts exactly if the buffer is well formed, every signature recovers and m keeper positions are met |
| `Quorum.SignersAreTails` | utils/poly/poly.go:73-90 | the signers of a buffer are the last 20 bytes of the keys that its signatures recover to |
| `Keepers.AddressAt` | utils/poly/poly.go:73-90 | an address takes the last 20 bytes of a key, with zeros in front of a shorter one |
| `Quorum.TailsExact` | utils/poly/poly.go:73-90 | every set of listed signing keys passes the thresholds that its addresses should pass, and no others, exactly if each listed key's tail is a keeper's address and no two tails are the same |
| `Quorum.QuorumRefused` | utils/poly/poly.go:73-90 | a keeper whose address is not its key's tail: its own signature, a full quorum, is refused |
| `Quorum.ThresholdOverlap` | utils/poly/poly.go:32-48 | two accepted sets over n distinct keepers share at least m1 + m2 - n of them |
| `Quorum.RepeatedKeeper` | utils/poly/poly.go:125-132 | with a keeper listed twice one signer meets a threshold of two |
| `Quorum.VerifyPolyHeader` | utils/poly/poly.go:135-158 | accepts exactly if 3 bookkeepers count at least 2 peers each, all are peers, and the library finds as many signatures as there are bookkeepers |
| `Quorum.QuorumOverlap` | utils/poly/poly.go:135-146 | two accepted headers share what their distinct bookkeepers force, and at least a third of the peers if neither repeats one |
| `Quorum.RepeatedBookkeepers` | utils/poly/poly.go:135-146 | with repeated bookkeepers two accepted headers may share none |
| `Checksum.BeforeIsStrictTotal` | manager/utils.go:329-333 | the order by checksummed hex text is strict and total whatever the checksum |

## Left out

- Network clients, the Poly SDK, wallets, key stores, ABI and JSON encoding: every call is a reply that the model takes as given.
- Cryptography: hashes, key conversion and recovery are function parameters; only `Keepers.EpochBytesExact` takes the absence of a collision among the listed keys for granted.
- The `ZeroCopySource` and `ZeroCopySink` library and bolt itself are not part of the repository: the format is the one its samples show, and a transaction error is a fault flag.
- Chain reorganisations on Palette: the chain is one fixed function of the height.
- What Poly accepts of other relayers' headers: that it takes only the next change of validators is a hypothesis (`Pipeline.Honest`); their transfers and headers themselves are included (`Pipeline.DoneByOther`, `Pipeline.HeaderByOther`).
- Tickers, sleeps, logging, flags and configuration files: no state of interest.
- The endless waits of `commitHeader` and `waitTransactionConfirm`: the model says what holds once they end.
- Block heights of the pipeline do not wrap at 2^64: the cursors stay below the node height, which is itself a uint64.
- `PutValSet` and `GetValSet`: neither manager uses them.
- The `tools` package: twins of code modelled here that the program does not import.
- `manager/utils.go` holds copies of the functions of `utils/poly/poly.go`; they are modelled once. Its `DeserializeKeepers` and `dissembleHeaderSigs`, used by no manager, are not modelled.
- What `commitHeader` of a sender packs for a bookkeeper change: the model keeps whether it went through. An index that is not hex, at which `getMappingKey` would fail, has the slot `None`; no entry of a run has one (`Origins.NothingInvented`).
- Panics on malformed replies of a foreign type (type assertions on notification states, short transaction hashes).
- Whether a transaction that a Palette node accepted succeeds: its receipt is only logged. The bound of 64 on a channel: a full one makes the scan wait.
- Keepers.DeserializeKeepers: an allocation too large for memory but below 2^63 entries succeeds in the model.
