# Chronicle receiver: a verified model

FIO.Chronicle reads blocks from a state history node, keeps a small revisioned database, and feeds
a consumer that acknowledges what it has stored. Blocks can be orphaned, the consumer can lag, the
process can be restarted at any time. This project models that machinery in Dafny and proves what
it keeps in every run, together with the ABI store, the portable snapshot, the export queue and the
key and name arithmetic.

`dafny verify dfyconfig.toml` checks everything.

## How the model is laid out

| file | content |
|---|---|
| `Basics`, `Messages` | 32-bit words with explicit wrap-around; blocks, rows and events |
| `Tables`, `Chainbase` | the four tables, `Replay` (what a fresh receiver makes of a log), and the store with its undo stack |
| `AbiCache` | the insert-only decoded-ABI context against the latest-ABI table |
| `ReceiverModel`, `ReceiverObject` | one function per entry point, and the class whose methods, loops and fields follow the program and are proved to compute those functions |
| `ReceiverRuns` | runs of the receiver and the invariant every step keeps |
| `RunTheorems`, `FlowControl`, `ReceivedBlocks`, `AbiHistory` | theorems over all runs of the receiver |
| `Outcomes` | what a block, a restart and an acknowledgement do in any run, told by the surviving blocks alone |
| `RelicExporter`, `Chains`, `RelicSystem` | the exporter's drain loop, its SQL consumer as a chain of blocks, and theorems over all runs of the composed system |
| `RelicMirror` | when consumer and receiver agree exactly |
| `RelicFailures`, `RelicWitnesses` | where and exactly when the composed system falls short, and runs that show it |
| `Snapshot`, `ExportQueue` | the portable snapshot; the exporters' queue, back-off and water marks |
| `Numbers`, `Base58`, `Names`, `Keys` | Base58 decoding in place, 64-bit names, account names from keys |

A run is a sequence of steps: a block (or an empty message) arrives, an acknowledgement arrives,
reading goes on or pauses, the slowdown flag is set, an ABI is loaded for decoding, the process is
restarted. Beside the receiver's state a run carries two things the program does not have: the log
of surviving blocks (a fork at B cuts it to the blocks below B, a restart to the committed ones)
and the highest irreversible block ever received. An exception or abort ends in `Stopped`, from
which only a restart leads on; an undo loop that cannot end is the state `Diverged`.

The node is assumed to behave as follows (`ReceiverRuns.Upstream`): its last irreversible block
never falls behind what this database has ever been told; blocks come without gaps; irreversible
blocks come in order; the first block ever is not beyond the irreversible part of the chain plus
one; block numbers stay below the largest 32-bit word. As long as nothing is committed, restarts use
the start-block option of the first start (`ReceiverRuns.Enabled`).

## What turned out to be false, and when exactly it is true

* The undo loop of a network fork has no exit when the undo stack is exhausted: its condition then
  holds after any number of undos. This happens if and only if the forked block is already committed
  (`Chainbase.UndoLoopEndlessIff`, `FlowControl.DivergesIff`). Nothing in the program compares the
  two; a restart followed by a node that lags is enough, and a run of two blocks gets there
  (`FlowControl.LaggingNodeDiverges`). Under the assumptions above it cannot happen
  (`RunTheorems.RunReplaysSurvivors`, `ReceivedBlocks.StopsIff`).
* Surviving blocks link to each other by id, with two exceptions (`ReceivedBlocks.SurvivorsAreLinked`): a
  block that came as a fork, for which the receiver does not compare ids at all, and the second block
  after a start-block option, where the head is not yet above that option. Everywhere else a block with
  another predecessor stops the receiver, and nothing but such a block, a fork at block 1 or a message
  that cannot be read does (`ReceivedBlocks.StopsIff`).
* A fork at block 1 always stops the receiver, because a revision of 0 is refused
  (`ReceivedBlocks.StopsIff`, which lists everything that can stop it in a run).
* The database revision equals the head after a block if and only if the block is not both at or
  below the old head and irreversible: such a block is checked by no branch at all
  (`FlowControl.AlignedIff`).
* The Relic exporter answers BLOCK_COMPLETED(n) and FORK(n) both with n-1. Its drain aborts the
  receiver if and only if a fork at B is pending and the completions of both orphans B and B+1 were
  queued before it (`RelicFailures.ExporterAbortsIff`). That needs reads to overtake the exporter.
  The program queues its callbacks by priority: 60 for the exporter (exp_relic_plugin.cpp:149), 55
  and 50 for the events on their way to it (decoder_plugin.cpp:397, receiver_plugin.cpp:341) and 40
  for socket reads (receiver_plugin.cpp:269). appbase is not part of this model; if it serves the
  larger number first, every block arrives at a drained queue, and then no callback ever aborts the
  receiver (`RelicFailures.EagerNeverAborts`). Under a scheduler without that order there is a run
  of four blocks that aborts (`RelicWitnesses.QueuedOrphansAbort`). The other runs named below all
  drain before they read.
* Because of that n-1 the newest block is not acknowledged before the next one arrives
  (`RelicFailures.NewestStaysUnacknowledged`). The receiver ever stops at its end block, in any run,
  with restarts at any time, if and only if the end block is 1 and scanning starts at the beginning, that is
  without having read anything (`RelicFailures.FinishesIff`). An unconfirmed window of 1, which the
  configuration admits, stalls after one block (`RelicFailures.ReadsOnIff`,
  `RelicFailures.WindowOfOneStalls`).
* A restart announces FORK only if it reverted something or found no state row. Whatever restarts a
  run contains, the consumer misses no block (`RelicSystem.NothingIsMissing`), but it can keep stale
  ones: consumer and receiver agree after a restart if and only if a FORK was announced or the
  consumer holds nothing above the committed block (`RelicMirror.RestartMirrorsIff`). Such a restart
  is called clean; with clean restarts only, the two agree exactly
  (`RelicMirror.ConsumerMirrorsReceiver`). After an unclean one they agree again exactly with the
  first fork at or below their first disagreement (`RelicMirror.MirrorsAfterIff`).
* Restarting a running receiver is clean once its start-up FORK has been answered
  (`RelicFailures.RestartIsCleanOnceAnswered`). It can fail to be before that
  (`RelicWitnesses.SecondRestartLosesFork`), after a stop on an announced block with nothing saved,
  if the exporter still drains (`RelicFailures.StopIsCleanIff`,
  `RelicWitnesses.BadFirstBlockLosesFork`), and after a start refused for its start-block option
  (`RelicFailures.RefusedStartIsCleanIff`, `RelicWitnesses.RefusedStartLosesFork`).
* The interactive ABI lookup does not compare the account it found with the one it looked for. It
  answers for the right account, or not at all, if and only if the account has an entry at or below
  the block or no greater account has any entry (`AbiHistory.LookupOwnAccountIff`,
  `AbiHistory.LookupForeignAbi`).
* The same lookup marks the account as imported even if the row it found holds an ABI that cannot be
  decoded; the context then lacks an account it answers for. This happens if and only if that row is
  malformed or empty (`AbiHistory.LookupIsUsableIff`); over well-formed histories it never does
  (`AbiHistory.LookupsKeepContext`).
* The newest history entry tells the ABI in force if and only if it is not a malformed ABI
  (`AbiHistory.HistoryTellsLatestIff`): in one block a malformed ABI can overwrite the history entry of
  a well-formed one that stays in force (`AbiHistory.MalformedHidesLatest`).
* The water marks release every receiver they slowed down if and only if the low water mark is at
  least 2; below that the first slowdown is for ever (`ExportQueue.ReleasableIff`,
  `ExportQueue.DeadlockFreeIff`). Queue limits of 1 and 2 fail, and five large ones whose threefold
  overflows 32 bits (`ExportQueue.WhichLimits`).
* The snapshot round trip is the identity except for history entries of removed ABIs, which are not
  written (`Snapshot.RoundTripOfScan`). A lookup in a restored database agrees with the original one
  if and only if the original did not find a removal (`Snapshot.RestoredLookupIff`): a removed ABI
  comes back.
* The account derived from a key is a function of the key string if and only if the decoded bytes
  settle it, as 33 of them always do; otherwise bytes of the buffer that were never written decide
  whether there is an account (`Keys.DeterminedIff`). The program never compares the decoded size with
  its 37-byte buffer; `Base58.FitsIff` says exactly when it stays inside.
* Base58 decoding does not refuse characters outside the alphabet: each adds 2^32-1 if the number so
  far is a multiple of 256 and subtracts one otherwise (`Base58.ForeignCharacter`).
* A fork after a restart on a restored snapshot stops the receiver (`Snapshot.RestoredForkStops`).
* The second guard of the live branch of `receive_result` (a block number below the last irreversible
  block) can never fire: the first guard has already required the irreversible block not to go back
  (asserted in `ReceiverObject.Receiver.AdmitBlock`, part of `ReceivedBlocks.StopsIff`).

## Model

| member | source | states |
|---|---|---|
| RunTheorems.RunReplaysSurvivors | chronicle-receiver/receiver_plugin.cpp:713-828 | in every run with forks, aborts and restarts, the tables equal a fresh replay of the surviving blocks only, these have consecutive numbers, the head is the last of them, and the undo loop never hangs |
| RunTheorems.UndoReachesEveryPrefix | chronicle-receiver/receiver_plugin.cpp:744-828 | revision equals head, undo depth equals head minus committed block, and undoing k times gives the replay that stops k blocks earlier |
| ReceiverRuns.RollBackIsExact | chronicle-receiver/receiver_plugin.cpp:759-782 | for a fork at B above the committed block the undo loop ends with revision B-1, the committed block unchanged, and the tables of the surviving blocks below B |
| RunTheorems.CommittedOnlyGrows | chronicle-receiver/receiver_plugin.cpp:874-881 | between any two states of a run, restarts included, the committed block does not decrease; it never passes the highest irreversible block; a restart resumes right after it |
| RunTheorems.CacheNeverStale | chronicle-receiver/receiver_plugin.cpp:1027-1184 | in every running state an imported account is decoded with exactly the ABI of the latest table |
| RunTheorems.LookupAnswersLatest | chronicle-receiver/receiver_plugin.cpp:1151-1184 | in every running state a lookup of any account answers exactly when and what the latest table does |
| ReceiverRuns.DeliverKeepsInv | chronicle-receiver/receiver_plugin.cpp:713-828 | one received block, whichever branch it takes, keeps tables, every saved revision, head, irreversible block and ABI cache consistent with the log of survivors |
| ReceiverRuns.RestartKeepsInv | chronicle-receiver/receiver_plugin.cpp:399-473 | a restart from any state, also from an aborted one, keeps them consistent with the committed part of the log and does not move the committed block |
| ReceiverRuns.NextKeepsInv | chronicle-receiver/receiver_plugin.cpp:529-587 | every step keeps the invariant and moves neither the committed nor the highest irreversible block backwards |
| FlowControl.DivergesIff | chronicle-receiver/receiver_plugin.cpp:763-765 | the undo loop of a fork runs for ever, its condition true after any number of undos, if and only if the block is a fork whose irreversible block is accepted and it is at or below the committed revision |
| FlowControl.LaggingNodeDiverges | chronicle-receiver/receiver_plugin.cpp:415-433 | a run of two blocks and a restart reaches a receiver that a lagging node sends into that loop |
| FlowControl.AlignedIff | chronicle-receiver/receiver_plugin.cpp:744-788 | revision equals head after a stored block if and only if the block is not both at or below the old head and irreversible |
| FlowControl.ForkAwaitsAck | chronicle-receiver/receiver_plugin.cpp:772-781 | a network fork at B leaves the receiver waiting for B-1, with acknowledged and committed block at most B-1 |
| FlowControl.ForkBlocksUntilAck | chronicle-receiver/receiver_plugin.cpp:547-587 | until B-1 is acknowledged, whatever other acknowledgements and pauses occur, no block is received, nothing is committed, and the acknowledged block stays below B |
| FlowControl.WindowStaysBounded | chronicle-receiver/receiver_plugin.cpp:548-550 | if acknowledgements neither go back nor pass the head, in every running state of every run committed <= acknowledged <= head, the unsigned difference does not wrap and is at most the configured maximum |
| FlowControl.NextKeepsWindow | chronicle-receiver/receiver_plugin.cpp:1907-1938 | every single step keeps that window |
| FlowControl.AckStaysAckedIff | chronicle-receiver/receiver_plugin.cpp:1907-1938 | an acknowledgement leaves the committed block acknowledged if and only if it does not go below it while a fork is pending |
| FlowControl.CommittedIsAcknowledged | chronicle-receiver/receiver_plugin.cpp:874-881 | in every run with such acknowledgements, backward ones during a fork and ones beyond the head included, nothing unacknowledged is committed |
| FlowControl.RestartResumesInTime | chronicle-receiver/receiver_plugin.cpp:638 | in the same runs a restart resumes no later than right after the lower of the irreversible and the acknowledged block |
| FlowControl.ReadsIff | chronicle-receiver/receiver_plugin.cpp:529-560 | in every run the receiver reads on if and only if the slowdown flag is clear, the priority queue is not too long, the end block is not next, and, with an acknowledging exporter, no fork is pending and the window is not full; it stops if and only if the end block is reached, irreversible and acknowledged, and then everything is committed |
| FlowControl.SlowBlocksReading | chronicle-receiver/receiver_plugin.cpp:547-550 | from a set slowdown flag with no read outstanding until it is cleared or the process restarts, whatever else happens, no block is received and log, tables and head stay |
| FlowControl.PauseGrows | chronicle-receiver/receiver_plugin.cpp:562-567 | after n polls in a row that are held back the pause is 50*n ms, at most 500 |
| Outcomes.BlockOutcome | chronicle-receiver/receiver_plugin.cpp:713-828 | in every run a block that does not stop the receiver becomes head and last surviving block; fork state, acknowledged block, revision and committed block are given by numbers alone, the tables by the log |
| Outcomes.StoppedOutcome | chronicle-receiver/receiver_plugin.cpp:713-843 | in every run a block that stops the receiver is in the database if and only if just its traces cannot be read; what it forked off is gone |
| Outcomes.BlockEvents | chronicle-receiver/receiver_plugin.cpp:772-843 | what is published for a block in every run: FORK, BLOCK and BLOCK_COMPLETED in this order, each exactly when it should be |
| Outcomes.RestartOutcome | chronicle-receiver/receiver_plugin.cpp:399-473 | in every run a restart leaves exactly the blocks below the saved revisions, takes head, ids and irreversible block from the last of them, counts it as acknowledged, waits for FORK if something was reverted or nothing committed, and is refused exactly for a start-block option on a used database or at the end block |
| Outcomes.RestartEventsOf | chronicle-receiver/receiver_plugin.cpp:441-465 | the FORK events of a start in every run |
| Outcomes.AckOutcome | chronicle-receiver/receiver_plugin.cpp:1907-1938 | when an acknowledgement takes effect, ends the wait for a fork, or is fatal |
| ReceivedBlocks.ReceivedExactly | chronicle-receiver/receiver_plugin.cpp:803-816 | the received-blocks table of a replay holds exactly the live blocks between the last live block and the irreversible block it reported, each with its own id |
| ReceivedBlocks.ReceivedIsContiguous | chronicle-receiver/receiver_plugin.cpp:803-816 | with two blocks the table of a replay has every block between them |
| ReceivedBlocks.TableIsSurvivingRun | chronicle-receiver/receiver_plugin.cpp:803-816 | in every reachable state the table is an unbroken run of surviving ids, after a live block within [irreversible, head] and including the head |
| ReceivedBlocks.NeverDuplicate | chronicle-receiver/receiver_plugin.cpp:803-809 | in every run a block that passes the checks never meets its own number in the table, forks included |
| ReceivedBlocks.StopsIff | chronicle-receiver/receiver_plugin.cpp:713-871 | in every run a delivered block stops the receiver if and only if it forks at block 1, or is live, follows the head, is above the start-block option and does not name the newest surviving block as its predecessor, or its block, rows or traces cannot be read; all other checks never fire and the undo loop ends |
| ReceivedBlocks.SurvivorsAreLinked | chronicle-receiver/receiver_plugin.cpp:783-786 | in every run, forks, stops and restarts included, each live surviving block above the second names the one before it by id, unless it came as a fork |
| ReceivedBlocks.PositionsListsRange | chronicle-receiver/receiver_plugin.cpp:622-636 | the positions are exactly the table entries from the irreversible block to the head, in ascending order |
| ReceivedBlocks.PositionsEndAtHead | chronicle-receiver/receiver_plugin.cpp:622-636 | the positions sent upstream are a gapless ascending run ending at the head, or empty, and empty exactly if the last block was irreversible on arrival |
| Chainbase.UndoTimesIsUndoTo | chronicle-receiver/receiver_plugin.cpp:763-765 | popping revisions one by one reaches the tables saved for the target revision, and never goes below the committed one |
| Chainbase.UndoLoopEndlessIff | chronicle-receiver/receiver_plugin.cpp:763-765 | no number of undos brings the revision below num if and only if num is at or below the committed revision |
| Chainbase.UndoLoopEnds | chronicle-receiver/receiver_plugin.cpp:763-765 | otherwise the loop ends exactly with the tables saved for num-1 |
| Chainbase.Database.PopRevision | chronicle-receiver/receiver_plugin.cpp:764 | brings back the tables saved last, and does nothing when none are saved |
| Chainbase.Database.SetRevision | chronicle-receiver/receiver_plugin.cpp:744-749 | the revision counter can be moved only while nothing is saved |
| Chainbase.Database.CommitTo | chronicle-receiver/receiver_plugin.cpp:880 | dropping saved tables from the bottom gives exactly the store committed to the given revision |
| Chainbase.Database.RevertUncommitted | chronicle-receiver/receiver_plugin.cpp:399-412 | ends in the committed tables and revision and reports how many were reverted |
| ReceiverObject.Receiver.LoadState | chronicle-receiver/receiver_plugin.cpp:415-473 | start-up on any database gives the state and FORK events of the specification, the two refusals included |
| ReceiverObject.Receiver.RestoreHead | chronicle-receiver/receiver_plugin.cpp:419-438 | head and irreversible block come from the state row, or from the start-block option if there is none |
| ReceiverObject.Receiver.ClearContractAbi | chronicle-receiver/receiver_plugin.cpp:1037-1057 | cache, latest table and history after an ABI was removed |
| ReceiverObject.Receiver.SaveContractAbi | chronicle-receiver/receiver_plugin.cpp:1061-1114 | cache, latest table and history after a setabi, well-formed or not |
| ReceiverObject.Receiver.GetContractAbiReady | chronicle-receiver/receiver_plugin.cpp:1151-1184 | scanning mode: loads on demand, answers true exactly if the account is imported or has a latest ABI |
| ReceiverObject.Receiver.ReceiveDeltas | chronicle-receiver/receiver_plugin.cpp:915-1024 | the row loop computes ABI tables and cache of the specification, interleaving setabi and decoding as they come |
| ReceiverObject.Receiver.RollBackTo | chronicle-receiver/receiver_plugin.cpp:759-782 | the undo loop, one revision at a time, ends in the saved tables of block num-1 and publishes FORK, or is detected as endless |
| ReceiverObject.Receiver.AdmitBlock | chronicle-receiver/receiver_plugin.cpp:726-788 | the checks before a block becomes the head, with every refusal |
| ReceiverObject.Receiver.StoreReceived | chronicle-receiver/receiver_plugin.cpp:803-816 | the new block is in the table, exactly the entries below the irreversible block are gone, the rest is unchanged |
| ReceiverObject.Receiver.Truncate | chronicle-receiver/receiver_plugin.cpp:810-815 | removing first entries one by one leaves exactly the entries not below the irreversible block, and never empties the table |
| ReceiverObject.Receiver.CommitDb | chronicle-receiver/receiver_plugin.cpp:874-881 | commits up to the lower of irreversible and acknowledged block |
| ReceiverObject.Receiver.StoreBlock | chronicle-receiver/receiver_plugin.cpp:798-824 | the undo session: on success one more revision with the tables of the block applied, on any exception the store as it was before |
| ReceiverObject.Receiver.TakeBlock | chronicle-receiver/receiver_plugin.cpp:790-843 | the block becomes the head before it is read or stored; BLOCK is published once it is read, the session is pushed before the traces are, BLOCK_COMPLETED comes after all of it |
| ReceiverObject.Receiver.ReceiveResult | chronicle-receiver/receiver_plugin.cpp:713-871 | one message changes state and events as specified, in all branches |
| ReceiverObject.Receiver.AckBlock | chronicle-receiver/receiver_plugin.cpp:1907-1938 | acknowledgements outside a fork, before, at and beyond the awaited block |
| ReceiverObject.Receiver.ContinueRead | chronicle-receiver/receiver_plugin.cpp:529-587 | reads on, waits with growing pause, or stops at the end block after committing |
| ReceiverObject.Receiver.RequestBlocks | chronicle-receiver/receiver_plugin.cpp:622-638 | the index walk yields the positions of the specification and asks for the block after the head |
| AbiCache.RowsKeepCoherence | chronicle-receiver/receiver_plugin.cpp:1027-1114 | any mix of setabi, removal and decoding keeps context and latest table equal on all imported accounts, which needs the context to be destroyed since it ignores second inserts |
| AbiCache.LoadedAnswersLatest | chronicle-receiver/receiver_plugin.cpp:1169-1182 | from a coherent cache, a loaded context answers for an account exactly when and what the latest table does |
| AbiHistory.RowsAreDecoded | chronicle-receiver/receiver_plugin.cpp:927-979 | in every run each contract row of a block is decoded with exactly the ABI that its contract's own rows, up to this row, have left in force, or with none if there is none |
| AbiHistory.ReplayShows | chronicle-receiver/receiver_plugin.cpp:1037-1132 | for each account, latest ABI and newest history entry of a replay are what folding that account's own rows gives |
| AbiHistory.HistoryAgreesWithLatest | chronicle-receiver/receiver_plugin.cpp:1037-1132 | in every reachable database a well-formed newest history entry is the latest ABI, an empty or missing one means there is none, and every latest ABI is well-formed |
| AbiHistory.HistoryTellsLatestIff | chronicle-receiver/receiver_plugin.cpp:1037-1132 | in every reachable database the newest history entry tells the ABI in force, none if it is empty or missing, if and only if it is not a malformed ABI |
| AbiHistory.MalformedHidesLatest | chronicle-receiver/receiver_plugin.cpp:1103-1113 | a malformed ABI in the same block hides the ABI in force from the history |
| AbiHistory.SearchLooksBack | chronicle-receiver/receiver_plugin.cpp:1117-1132 | the newest entry at or below block h in the history of a whole log is what was recorded last when h had just been scanned |
| AbiHistory.LowerBound | chronicle-receiver/receiver_plugin.cpp:1159 | finds the first key not before the probe in the order of the index, if there is one |
| AbiHistory.GetReadyInteractive | chronicle-receiver/receiver_plugin.cpp:1151-1168 | answers at once for an imported account; otherwise offers the ABI of the row lower_bound finds to the context and marks this one account, or answers not ready and changes nothing |
| AbiHistory.LookupIsUsableIff | chronicle-receiver/receiver_plugin.cpp:1151-1168 | from a context that holds exactly the imported accounts, an account answered ready is in the context and the two still agree if and only if the row found holds a well-formed ABI; nothing held is forgotten |
| AbiHistory.LookupsKeepContext | chronicle-receiver/receiver_plugin.cpp:1151-1168 | over any sequence of lookups in a history of well-formed ABIs the context holds exactly the imported accounts, those answered ready and those it started with |
| AbiHistory.LowerBoundIsSearch | chronicle-receiver/receiver_plugin.cpp:202-224 | on the account-ascending, block-descending index, lower_bound finds the account's newest entry at or below the block whenever there is one |
| AbiHistory.LookupOwnAccountIff | chronicle-receiver/receiver_plugin.cpp:1158-1167 | the lookup never answers with another account's ABI if and only if the account has such an entry or no greater account has any |
| AbiHistory.LookupForeignAbi | chronicle-receiver/receiver_plugin.cpp:1158-1167 | otherwise it can decode with another account's ABI, even with one set later |
| AbiHistory.LookupGivesLastRecorded | chronicle-receiver/receiver_plugin.cpp:1154-1167 | in every reachable database the lookup at a scanned block uses the ABI recorded last when that block was scanned, and a fresh context decodes with it if it is well-formed |
| RelicExporter.Exporter.SendEvents | chronicle-receiver/exp_relic_plugin.cpp:342-410 | one callback drains the queue in order, leaves consumer and receiver as the events one by one, sets the back-off, and with a low water mark of at least 2 releases the receiver |
| RelicExporter.Exporter.Wait | chronicle-receiver/exp_relic_plugin.cpp:345-358 | with an empty queue the pause starts at 5 ms and doubles while below 256 ms |
| RelicExporter.Exporter.SendOne | chronicle-receiver/exp_relic_plugin.cpp:361-369 | takes the oldest event and sets the slowdown flag by the size of the queue before |
| RelicExporter.Exporter.Handle | chronicle-receiver/exp_relic_plugin.cpp:411-587 | BLOCK adds, FORK n deletes from n on, FORK n and BLOCK_COMPLETED n acknowledge n-1 |
| RelicExporter.Exporter.DeleteFrom | chronicle-receiver/exp_relic_plugin.cpp:2391-2402 | the consumer keeps exactly its blocks below n, in order |
| RelicSystem.NothingIsMissing | chronicle-receiver/exp_relic_plugin.cpp:342-410 | in every run, with restarts at any time, the consumer has every committed block, and with the pending events of a running receiver every surviving block |
| RelicSystem.RelicStaysInWindow | chronicle-receiver/exp_relic_plugin.cpp:2391-2409 | in every run, with restarts at any time, this exporter keeps committed <= acknowledged <= head within the configured maximum |
| RelicSystem.NextKeepsQueue | chronicle-receiver/exp_relic_plugin.cpp:342-410 | every step of the composed system keeps the window and the shape of the queue, and queues nothing that touches a committed block |
| RelicSystem.DrainAbortsIff | chronicle-receiver/receiver_plugin.cpp:1907-1938 | for every shape the queue can have, what a drain does to fork state, acknowledged block and status; after it at most the newest block is unacknowledged |
| RelicMirror.ConsumerMirrorsReceiver | chronicle-receiver/exp_relic_plugin.cpp:411-587 | in every run with clean restarts, applying the pending events makes the consumer's chain the surviving chain, no block too many, and in every state, queue lost or not, both agree on all committed blocks |
| RelicMirror.MirrorsAfterIff | chronicle-receiver/exp_relic_plugin.cpp:2391-2402 | in every run, after any step consumer and receiver agree if and only if they did before, or a network fork came at or below their first disagreement, or a restart left no stale block |
| RelicMirror.AgreeBelowLess | chronicle-receiver/exp_relic_plugin.cpp:2391-2402 | agreement below a number is agreement below every smaller one, so any lower fork restores it too |
| RelicMirror.RestartMirrorsIff | chronicle-receiver/receiver_plugin.cpp:453-465 | after a restart that loses the queue, the start-up events make the consumer's chain the receiver's log if and only if the restart was clean |
| RelicFailures.ExporterAbortsIff | chronicle-receiver/exp_relic_plugin.cpp:2391-2409 | in every run the exporter's callback aborts the receiver if and only if a fork is pending and the completions of the orphans at its number and the next were queued before it |
| RelicFailures.EagerNeverAborts | chronicle-receiver/exp_relic_plugin.cpp:149 | in every run in which each block arrives at a drained queue, with restarts at any time, no callback of the exporter aborts the receiver |
| RelicWitnesses.QueuedOrphansAbort | chronicle-receiver/exp_relic_plugin.cpp:570 | a run of four blocks, reads overtaking the exporter, whose next callback aborts |
| RelicFailures.RestartIsCleanOnceAnswered | chronicle-receiver/receiver_plugin.cpp:441-465 | after clean restarts, a running receiver that does not wait for the answer to its start-up FORK can be restarted cleanly |
| RelicFailures.StopIsCleanIff | chronicle-receiver/receiver_plugin.cpp:453-465 | after clean restarts, whatever step stops such a receiver, the restart after the next drain is clean if and only if the step announced no block, or a revision is saved, or there is no state row |
| RelicFailures.RefusedStartIsCleanIff | chronicle-receiver/receiver_plugin.cpp:427-470 | in every run, after a start refused under the same or changed options the next one is clean if and only if it reverted something without a start-block option, or there is no state row, or the consumer holds nothing above the committed block |
| RelicWitnesses.SecondRestartLosesFork | chronicle-receiver/receiver_plugin.cpp:453-465 | a run in which a second restart loses the FORK of the first, leaving a stale block with the consumer |
| RelicWitnesses.RefusedStartLosesFork | chronicle-receiver/receiver_plugin.cpp:427-432 | a run in which a start refused for its start-block option does |
| RelicWitnesses.BadFirstBlockLosesFork | chronicle-receiver/receiver_plugin.cpp:790-824 | a run in which a first block that cannot be decoded does, once its BLOCK was drained |
| RelicFailures.ReadsOnIff | chronicle-receiver/receiver_plugin.cpp:547-550 | in every run, after a drain a receiver that nothing else holds back reads on if and only if the window is at least 2 or no block is unacknowledged |
| RelicFailures.WindowOfOneStalls | chronicle-receiver/exp_relic_plugin.cpp:2533-2535 | with the window of 1 the configuration admits, once a block is unacknowledged and the queue empty, no step but a restart changes chain, head or acknowledged block |
| RelicFailures.FinishesIff | chronicle-receiver/receiver_plugin.cpp:554-560 | some run, with restarts at any time, lets the receiver stop at its end block if and only if the end block is 1 and scanning starts at block 0 or 1 |
| RelicFailures.NewestStaysUnacknowledged | chronicle-receiver/exp_relic_plugin.cpp:570 | after any received block and until the next restart the head is never acknowledged |
| Chains.ConsumeAbove | chronicle-receiver/exp_relic_plugin.cpp:2391-2402 | events above n, forks among them, leave the consumer's blocks up to n alone |
| Chains.AckOrphans | chronicle-receiver/receiver_plugin.cpp:1909-1936 | what a run of queued completions does to a receiver that waits after a fork |
| Snapshot.WriteSnapshot | chronicle-receiver/receiver_plugin.cpp:1360-1450 | reverts to the committed tables, refuses a database without state row, and writes each table once in the order of its index, without empty ABIs, then the end marker |
| Snapshot.ReadSnapshot | chronicle-receiver/receiver_plugin.cpp:1454-1538 | accepts exactly what the specification accepts and leaves the tables it gives; refused for its header or for a state row in the database, it leaves the tables alone |
| Snapshot.AcceptedIff | chronicle-receiver/receiver_plugin.cpp:1454-1533 | for every database and file: accepted if and only if magic number and version are right, the database has no state row, and the rows up to the first end marker, which carries the magic number, repeat no key of the database or of each other |
| Snapshot.AcceptedHolds | chronicle-receiver/receiver_plugin.cpp:1483-1533 | an accepted file leaves the rows that were there and the rows up to the end marker, nothing else, and the first state row |
| Snapshot.CreateAllIff | chronicle-receiver/receiver_plugin.cpp:1483-1525 | rows can be created one after the other if and only if all their keys are new, and the tables then hold them |
| Snapshot.RoundTrip | chronicle-receiver/receiver_plugin.cpp:1360-1538 | reading a written snapshot into an empty database gives the tables it was written from without empty ABIs |
| Snapshot.RoundTripOfScan | chronicle-receiver/receiver_plugin.cpp:1429-1446 | for every reachable database that is the committed state, received blocks and latest ABIs exactly, and the history without removals |
| Snapshot.RestoredLookupIff | chronicle-receiver/receiver_plugin.cpp:1434-1442 | for every account and block, a lookup on restored tables agrees with the original if and only if the original does not find a removal; where it does, the restored one looks further back |
| Snapshot.SecondRoundTrip | chronicle-receiver/receiver_plugin.cpp:1360-1538 | a second round trip is the identity |
| Snapshot.RestoredForkStops | chronicle-receiver/receiver_plugin.cpp:744-809 | on a database restored from any log, a fork after the restart stops the receiver: there is nothing to undo and the forked block meets its own key |
| Snapshot.RestoredIff | chronicle-receiver/receiver_plugin.cpp:1483-1533 | a stream is accepted if and only if its first end marker has the right magic number and no row before it is refused |
| Snapshot.DamagedIsRejected | chronicle-receiver/receiver_plugin.cpp:1454-1477 | every proper prefix of a snapshot, a wrong version and a wrong magic number at either end are rejected |
| ExportQueue.WsExporter.AsyncSendEvents | chronicle-receiver/exp_ws_plugin.cpp:309-346 | waits with doubled pause, or compares with the water marks and sends the oldest message |
| ExportQueue.DeliversInOrder | chronicle-receiver/exp_ws_plugin.cpp:309-358 | for every sequence of pushes and sends, sent plus waiting is what was pushed, and the pause is 0, 5, 10, 20, 40, 80, 160 or 320 ms by the number of idle sends since the last message |
| ExportQueue.DeadlockFreeIff | chronicle-receiver/exp_ws_plugin.cpp:461-464 | no run ends with the receiver slowed down and nothing to send if and only if the low water mark is at least 2 |
| ExportQueue.SlowForEver | chronicle-receiver/exp_ws_plugin.cpp:323-346 | with a low water mark below 2 a set slowdown flag stays set whatever is pushed and sent |
| ExportQueue.ReleasableIff | chronicle-receiver/exp_ws_plugin.cpp:461-464 | in every run a slowed-down receiver can be released again if and only if the low water mark is at least 2 |
| ExportQueue.WhichLimits | chronicle-receiver/exp_ws_plugin.cpp:461-464 | exactly eight 32-bit queue limits have a low water mark below 2: 0, 1, 2 and five that overflow |
| ExportQueue.DrainReleases | chronicle-receiver/exp_ws_plugin.cpp:323-346 | as many sends as there are messages empty the queue in order and release the receiver |
| Base58.FoldedIsValue | chronicle-receiver/keyops.hpp:40-51 | the number the loops compute is the base-58 value for strings over the alphabet |
| Base58.DigitIsPosition | chronicle-receiver/keyops.hpp:21-32 | the table inverts the alphabet string: each of its 58 characters has its position as value, every other character -1 |
| Base58.DecodesDigits | chronicle-receiver/keyops.hpp:21-65 | the string spelled with given positions of the alphabet decodes to exactly the base-58 number of these positions |
| Base58.ForeignCharacter | chronicle-receiver/keyops.hpp:40-51 | what a character outside the alphabet does to the number, by the unsigned wrap of its -1 |
| Base58.MultiplyAdd | chronicle-receiver/keyops.hpp:41-46 | in 32-bit arithmetic the inner loop multiplies the number in the buffer by 58 and adds the character, the excess being the carry, for characters inside and outside the alphabet |
| Base58.PushCarry | chronicle-receiver/keyops.hpp:47-50 | the bytes of the carry are appended, none superfluous |
| Base58.AddDigit | chronicle-receiver/keyops.hpp:40-51 | one character more, using no more bytes than the number needs |
| Base58.ConvertDigits | chronicle-receiver/keyops.hpp:37-51 | the outer loop ends with the number the whole string folds to, least significant byte first, and stays inside the buffer whenever that number fits |
| Base58.AppendZeros | chronicle-receiver/keyops.hpp:53-54 | one zero byte per leading '1' is added, the bytes before stay |
| Base58.ReverseInPlace | chronicle-receiver/keyops.hpp:57-62 | swapping from the end to the middle reverses the bytes and nothing beyond them |
| Base58.DecodeBase58 | chronicle-receiver/keyops.hpp:35-65 | the bytes denote, big-endian, the base-58 value of the string; non-zero values have one zero byte per leading '1' and no other leading zero; at most len+1 bytes for strings over the alphabet; without a string the buffer is left alone |
| Base58.TwiceIsEnough | chronicle-receiver/keyops.hpp:34 | for strings over the alphabet the buffer the comment asks for is large enough |
| Base58.FiftyFit | chronicle-receiver/keyops.hpp:93-95 | fifty characters over the alphabet without a leading '1' fit into the 37 bytes of key_to_account |
| Base58.FitsIff | chronicle-receiver/keyops.hpp:34-65 | decoding stays inside a buffer of n bytes if and only if the number and its leading zeros fit n bytes |
| Base58.DecodingIsInjective | chronicle-receiver/keyops.hpp:35-65 | strings over the alphabet with the same decoding are the same string |
| Base58.DecodingIsUnique | chronicle-receiver/keyops.hpp:35-65 | any string has just one decoding |
| Names.StringToName | chronicle-receiver/name.hpp:20-39 | shifting and OR-ing symbol by symbol gives the packed symbols of the string, within 64 bits |
| Names.UnpackSymbol | chronicle-receiver/name.hpp:16-39 | every symbol of a packed name can be read back from its own bits |
| Names.NameOrderIsStringOrder | chronicle-receiver/name.hpp:113-121 | on valid names, comparing the 64-bit values is comparing the strings, and equal values mean equal names |
| Keys.PartialKeyStep | chronicle-receiver/keyops.hpp:82-83 | the thirteen bit fields of a shortened key never overlap: each OR appends one symbol |
| Keys.ShortenKey | chronicle-receiver/keyops.hpp:67-88 | stops within byte 32, succeeds if and only if thirteen usable bytes can be chosen, packs the earliest such choice, and five bits of the first twelve and four of the last can be read back from the word |
| Keys.NameRoundTrip | chronicle-receiver/name.hpp:20-92 | every valid name, packed into its word and written out again, is the same string |
| Keys.AccountOfKey | chronicle-receiver/keyops.hpp:96-100 | the account has exactly twelve characters, all letters or digits 1-5, that spell the first twelve symbols, and its name is the shortened key with the low four bits cleared |
| Keys.KeyToAccount | chronicle-receiver/keyops.hpp:90-102 | from the string without its prefix: the buffer holds the decoded key, the account exists if and only if the buffer has thirteen usable bytes, and it spells the low five bits of the earliest twelve |
| Keys.DeterminedIff | chronicle-receiver/keyops.hpp:93-96 | the account depends on the key string alone if and only if the decoded bytes give all thirteen symbols or leave too few of the 33 bytes to complete them; with 33 decoded bytes it always does |

## Left out

- Sockets, timers, threads, the application's priority queue, program options, logging, the shared-memory mutex and the check for a stale head: input, output and wiring. The size of the priority queue is a parameter of `ContinueRead`.
- chainbase, abieos and the stored SQL procedures are not in the repository. chainbase is modelled by the behaviour the receiver relies on (undo of an empty stack does nothing, commit drops saved states, set_revision needs an empty stack), abieos as a context that refuses malformed ABIs and never replaces one, `insblocks` and `rbfork(n)` as adding a block and deleting from n on.
- The binary and JSON encodings of messages, ABIs and snapshot rows: an ABI is a tag with a validity, a snapshot is a sequence of typed rows.
- Interactive mode beyond the ABI lookup: its request queue, and the ABIs that go stale inside a block range.
- Filters on traces and tables, the other event types (traces, ABI updates and errors, permissions, pauses), the options that suppress block or table events, and exporter-less mode: a message is taken to carry its block and its events to be published. The documentation (docs/advanced-config.md:146-147) gives blacklists precedence over filters; that is not examined.
- The SQL statements of Relic's action handlers, its per-block lists for burnt domains and handles, and failing SQL statements. Pause events, which both exporters queue and Relic ignores, count towards the slowdown flag only, and that flag is free in the runs of the composed system.
- Scanning on from a restored snapshot, apart from the first fork (`Snapshot.RestoredForkStops`): runs start with an empty database, and their options stay the same apart from start-block.
- RunTheorems.RunReplaysSurvivors: assumes the upstream behaviour stated above, in particular that a node never reports a lower irreversible block than this database has ever been told; without it the undo loop can hang, which `FlowControl.DivergesIff` characterises for all inputs.
- RelicMirror.ConsumerMirrorsReceiver: restarts in its runs, and in those of `RelicFailures.RestartIsCleanOnceAnswered` and `RelicFailures.StopIsCleanIff`, are clean ones, because after any other restart the equality is lost, as `RelicMirror.RestartMirrorsIff` proves. What holds after other restarts is `RelicSystem.NothingIsMissing`.
- ReceiverObject.Receiver.RollBackTo: leaves the endless undo loop into the status Diverged, because Dafny's methods terminate.
- Snapshot.ReadSnapshot: says nothing about the tables after a file refused for one of its rows, because the program aborts there.
- Base58.DecodeBase58: only strings whose characters have an entry in the program's table of 128, and buffers the result fits into; the program checks neither.
- Keys.KeyToAccount: the same two conditions. `name::to_string` is taken to be the eosio one, which drops trailing dots.
- ReceiverObject.Receiver.ReceiveDeltas: only account and contract rows; permission rows, table filters and the published row events change nothing the receiver keeps.
- ReceiverObject.Receiver.TakeBlock: what traces contain, beyond whether they can be read, and messages without a block payload.
- ReceiverObject.Receiver.ReceiveResult: scanning mode only; an abort is the status Stopped.
- RelicExporter.Exporter.Handle: only the events that touch blocks; what TX_TRACE and TBL_ROW events and the burn lists of BLOCK_COMPLETED write to other SQL tables is not modelled.
- Date normalisation, amount stripping, `string_to_uint64_t`: finite or unused.
