# Verified models of the PFL core

PFL is the support library of the SLASH2 distributed file system. This project models the parts
of it that keep data alive or in order, and proves what they are for.

* **The write-ahead journal** (`JournalFormat`, `JournalSteps`, `JournalSafety`, `JournalRuns`,
  `JournalHandles`, `JournalLog`, `JournalRecovery`, `Journal`). A ring of slots with a reservation protocol, a pending list in
  order of slots, a distill list in order of transaction IDs, a background thread that distills
  and reclaims, and crash recovery by scan and replay. `JournalSteps` is the state machine: one
  action per locked region, so a run is any interleaving of writers, reservers, the distill thread
  and crashes. `JournalSafety` proves its invariant, `JournalRuns` the theorems over all runs.
  `JournalRecovery` is the scan and replay code, `Journal` the journal object; both are proved
  against the specification and the machine. `JournalHandles` is about handles that are reclaimed while
  a writer still uses them, `JournalLog` about what is in the log compared with what was asked for.
* **The checksum** (`Crc`). The table-driven CRC-64 with the polynomial of Annex B of ECMA-182, down
  to polynomial division over GF(2), and what damage it always detects.
* **The on-disk table** (`OdtableFormat`, `OdtableRuns`, `Odtable`). A persistent slot allocator at
  the level of bytes in a file, whose bitmap in memory must agree with the file after a reload.
* **The file-tree walker** (`FtsTour`, `FtsVisits`, `Fts`). A resumable pre- and post-order walk over a
  graph of directories with one shared, growing path buffer and cycle detection along the chain of
  ancestors. `FtsTour` follows the walk; `FtsVisits` says which places are visited, in which order and
  with what, and that this determines the walk.
* **Containers** (`Hashtbl`, `HeapOrder`, `Heap`, `Dynarray`, `Opstats`). An online-resizable hash
  table against a list in order of insertion, a heap with intrusive back-indices, a growable array,
  and a sorted registry on top of it.
* **The wire format** (`Pack`, `PackOps`). Packing and in-place unpacking of messages from senders of
  either byte order.
* **Protocols** (`Multiwait`, `Pool`, `Pins`). Waiting for one of several conditions, object pools
  between limits, and reader/writer pins, each as a state machine over its locked regions.

`Bytes` and `Optional` hold what several of these share. `dafny verify dfyconfig.toml` checks the
whole project.

## What does not hold as one might expect

Where the code does not meet a promise in all cases, the model keeps the code's behaviour, a lemma
exhibits a failing case, and another states when the promise is kept.

* **Handles in use.** A writer uses its handle until it returns (pfl/journal.c:554-574), but the
  transaction can be reclaimed as soon as it is on the pending list, needs no distilling and its group
  is committed. Entries logged with group 0 get the current group, which may be committed already.
  `JournalHandles.LostHandle` is a run that loses a handle under its writer, `ExposingSteps` says
  which steps lead there, and `HandleCondition` that not taking them is exactly what is needed. The
  theorems of `JournalRuns` hold in every state reached without a writer losing its handle;
  `JournalRuns.TimelyRunIsSafe` is the condition that callers can see to.
* **Wakeups.** A multiwait looks for a wakeup it has missed only when it is in its critical section
  (pfl/multiwait.c:443-447), and a wait that times out does not look at all (pfl/multiwait.c:461-464):
  `Multiwait.LostWakeup`, `Multiwait.TimedOutWakeup`, and exactly when in `Multiwait.WakeupKept`.
* **Message sizes** are added in an int (pfl/packgeneric.c:170,237): `Pack.OverflowAccepted`, and exactly
  when it matters in `Pack.UnpackCondition`.
* **Replay cursor.** Recovery raises the last transaction ID to the distill cursor but not to the
  replay cursor (pfl/journal.c:713-718). IDs issued afterwards can be at or below the replay cursor
  and their entries are skipped by the next recovery. `JournalRuns.ReplayFilterCondition` is the exact
  condition, `JournalRuns.LostEntry` a run that loses an entry.
* **Distilling at replay.** Every entry kept by the scan and above the distill cursor goes to the
  distill handler, whether or not it was flagged for distilling (pfl/journal.c:1043-1047):
  `JournalFormat.UnflaggedDistilled`, and exactly when not in `JournalFormat.DistillsOnlyFlagged`.
* **Heap removal.** Removal only sinks the item that fills the hole, so removing from the middle can
  break the order (pfl/heap.c:82-94): `HeapOrder.RemovedOrdered`, `HeapOrder.RemoveCanBreakOrder`.
  Reseating an item breaks it in the same cases: `HeapOrder.ReseatedOrdered`,
  `HeapOrder.ReseatCanBreakOrder`.
* **Splicing.** The tail of a splice that removes some items and adds more lands short
  (pfl/dynarray.c:285-286): `Dynarray.SpliceCondition`.
* **Reversing a subsequence** works only at the front (pfl/dynarray.c:116-118): `Dynarray.ReverseRight`,
  `Dynarray.ReverseWrong`.
* **Bucket generations** are 16 bits wide and signed (pfl/hashtbl.h:47), so a lookup after 32768 resizes
  never gets its bucket: `Hashtbl.GenerationAgrees`.
* **Pool maximum.** Growers allocate without the lock and can together pass the maximum
  (pfl/pool.c:369-376): `Pool.OverlapExceeds`, and exactly when in `Pool.MaximumCondition`.
* **Empty roots.** An empty root directory given with a slash at its end is shown without it in
  post-order (pfl/fts.c:792-796): `FtsTour.EmptyRootLosesSlash`, and exactly when in `FtsTour.LastVisit`.

## Model

| member | source | states |
|---|---|---|
| `Crc.Add` | pfl/crc.c:164-176 | the loop over the 256-entry table computes `Update`, the bit-serial register update, for every start register and byte string |
| `Crc.Calc` | pfl/crc.h:38-43 | the result is `Crc64`, and its 64 coefficients are the complement of the remainder of the message, shifted by 64 and with its first 64 coefficients complemented |
| `Crc.Verify` | pfl/crc.c:178-185 | true if and only if the value is the checksum of the data, that is, has the coefficients of that complemented remainder |
| `Crc.UpdateConcat` | pfl/crc.c:164-176 | adding two regions in turn is adding their concatenation, from any register |
| `Crc.TableStep` | pfl/crc.c:171-174 | one table lookup equals eight shift-and-subtract steps, for all 2^64 registers and all bytes, with every table entry as in the source |
| `Crc.EntryIsDivided` | pfl/crc.c:27-156 | each of the 256 table entries is its index divided by the polynomial |
| `Crc.FeedIsRemainder` | pfl/crc.c:164-176 | clocking message bits through the register leaves the remainder of long division of the message by the polynomial, on lists of coefficients |
| `Crc.UpdateIsFeed` | pfl/crc.c:164-176 | the register update on words is the one on coefficient lists |
| `Crc.UpdateIsRemainder` | pfl/crc.c:164-176 | the register after a message is the remainder of polynomial division of register and message |
| `Crc.ChecksumIsRemainder` | pfl/crc.h:38-43 | the all-ones start and the final inversion, on lists of coefficients: the checksum is the complement of the remainder of the message shifted by 64 with 64 ones added on top |
| `Crc.FeedInjective` | pfl/crc.c:164-176 | every later step is a bijection on the register: equal results from equal tails need equal registers |
| `Crc.WindowInjective` | pfl/crc.c:164-176 | absorbing up to 64 bits is injective in those bits |
| `Crc.BurstDetected` | pfl/crc.c:164-185 | two messages of equal length that agree outside 64 consecutive bits have equal checksums if and only if they are equal |
| `Crc.ByteBurstDetected` | pfl/crc.c:164-185 | damage confined to eight consecutive bytes changes the checksum, both directions |
| `Crc.MessageBitsInjective` | pfl/crc.c:164-176 | messages of equal length with equal bits are equal |
| `Bytes.LittleEndianRoundTrip` | pfl/journal.h:198-216 | a number that fits a width is read back from its bytes |
| `Bytes.ReadIsWeighed` | pfl/journal.h:198-216 | the number read from bytes is the sum of the bytes times powers of 256, the first byte least |
| `Bytes.WordOrder` | pfl/journal.h:198-216 | the bytes of a 64-bit word go from the low one to the high one, and those of a 32-bit word likewise |
| `JournalFormat.ComputeChecksum` | pfl/journal.c:487-492 | the two-region accumulation is the checksum of header and payload together |
| `JournalFormat.DamageCaught` | pfl/journal.c:643-655 | damage to at most eight consecutive payload bytes makes an intact record fail its test |
| `JournalFormat.IntactIs` | pfl/journal.c:634-655 | what a slot is checked for: the magic number 0x4567abcd, and the remainder over header and payload as its checksum |
| `JournalFormat.HeaderLayout` | pfl/journal.h:198-216 | where magic number, type, length, transaction ID and group stand in front of the checksum |
| `JournalFormat.TypeBits` | pfl/journal.h:178-182 | the bits of the type: formatted, entry, to be distilled, and the application's own above |
| `JournalFormat.HeaderDamageCaught` | pfl/journal.c:643-655 | damage to the header within eight consecutive bytes makes an intact record fail its test |
| `JournalFormat.OtherXidCaught` | pfl/journal.c:643-655 | an intact record does not pass with another transaction ID |
| `JournalFormat.OtherTxgCaught` | pfl/journal.c:643-655 | an intact record does not pass with another group |
| `JournalFormat.OtherKindCaught` | pfl/journal.c:643-655 | an intact record does not pass with another type or flag |
| `JournalFormat.ScannedAreEntries` | pfl/journal.c:632-673 | the scan looks only at intact entries that are on disk |
| `JournalFormat.ScanFindsEverything` | pfl/journal.c:659-673 | when formatted slots form a suffix, stopping at the first one misses no entry |
| `JournalFormat.ScannedExactly` | pfl/journal.c:632-673 | on any disk the scan sees exactly the intact entries in front of the first formatted slot |
| `JournalFormat.MaxXidBounds` | pfl/journal.c:674-680 | the last ID found is an upper bound of all IDs seen, and is one of them |
| `JournalFormat.KeepExactly` | pfl/journal.c:681-698 | an entry is kept exactly when it is above the replay cursor and uncommitted or undistilled |
| `JournalFormat.SortIncreasing` | pfl/journal.c:587-598 | sorting distinct entries keeps them all and orders them by transaction ID |
| `JournalFormat.SortSorts` | pfl/journal.c:587-598 | sorting any entries gives a permutation of them in order of ID, then of group |
| `JournalFormat.ToReplayExactly` | pfl/journal.c:605-731 | the list to replay holds exactly the intact entries the cursor leaves, in increasing order of ID |
| `JournalFormat.EventsExactly` | pfl/journal.c:1038-1060 | which entries reach the distill handler and which the replay handler |
| `JournalFormat.EventsInOrder` | pfl/journal.c:1038-1060 | handler calls come in order of ID, none twice, distill before replay of the same entry |
| `JournalFormat.RecoveryExact` | pfl/journal.c:1016-1060 | scan and replay together: which handler sees which entry, once each and in order, for any disk whose formatted slots are a suffix |
| `JournalFormat.RecoveryOfAnyDisk` | pfl/journal.c:1016-1060 | on any disk, under any cursor: the replay handler gets exactly the entries found that are above the replay cursor and uncommitted, the distill handler exactly those that the cursor leaves and that are above the distill cursor, in order of ID |
| `JournalFormat.ReplayCursorExactly` | pfl/journal.c:1055-1057 | the replay cursor that recovery leaves is at least the ID of every handler call and is that of one of them, or unchanged when there was none; a second recovery under it makes no call |
| `JournalFormat.LastXidOfAnyDisk` | pfl/journal.c:677-718 | the last ID that recovery ends with is the greatest of the entries found and the distill cursor |
| `JournalFormat.DistillsOnlyFlagged` | pfl/journal.c:1038-1047 | recovery gives the distill handler only flagged entries if and only if every intact unflagged entry on disk is covered by the replay cursor, the distill cursor or the committed group |
| `JournalFormat.UnflaggedDistilled` | pfl/journal.c:1038-1047 | a disk with one unflagged entry, and a cursor, on which recovery distills that entry |
| `JournalFormat.ReplayResumes` | pfl/journal.c:1055-1057 | a recovery that stopped after n entries, with the cursor saved, is resumed by the next one at exactly entry n |
| `JournalRecovery.Examine` | pfl/journal.c:634-655 | magic and checksum together are the integrity test |
| `JournalRecovery.NoteEntry` | pfl/journal.c:677-698 | one scanned entry updates the last ID and the kept list as the specification of both says |
| `JournalRecovery.ScanBatch` | pfl/journal.c:632-703 | a batch extends what was seen by its intact entries and stops at a formatted slot |
| `JournalRecovery.ScanSlots` | pfl/journal.c:605-731 | the batched scan returns the sorted list to replay and the last ID, for every disk and every read size that divides it |
| `JournalRecovery.ReplayEntries` | pfl/journal.c:1038-1060 | the replay loop makes exactly the handler calls of the specification and leaves the cursor at the last entry, or where it was when there is none |
| `JournalRecovery.Recover` | pfl/journal.c:1016-1094 | on any disk: each handler is called for exactly the entries due to it, in order; every call's ID is at most the cursor left, which is the ID of one of them or unchanged; a second recovery under that cursor makes no call; the last ID is the greatest found or the distill cursor |
| `JournalSteps.NextXidGrows` | pfl/journal.c:183-194 | IDs grow if and only if the 64-bit counter does not wrap, and 0 is never issued |
| `JournalSteps.CrashLeaves` | pfl/journal.c:476-521 | a crash leaves every slot as it is but that of the write in progress, which holds what is found there |
| `JournalSafety.StepKeepsInv` | pfl/journal.c:163-575 | every locked region of the journal, every read of a handle outside of them, and a crash with recovery at any moment, keeps the invariant of ring, IDs, log, disk, distill list, buffers and handles in use, unless it reclaims a handle that a writer uses |
| `JournalSafety.RecoveredInv` | pfl/journal.c:605-1094 | a recovered journal satisfies the invariant |
| `JournalSafety.LastXidCovers` | pfl/journal.c:677-718 | the ID recovery ends with is at least every ID in the log and the distill cursor |
| `JournalRuns.RunKeepsInv` | pfl/journal.c:163-1094 | the invariant holds after every run that reclaims no handle under its writer |
| `JournalRuns.ReachableInv` | pfl/journal.c:163-1094 | the invariant holds in every state reachable from a formatted journal, with any number of crashes and without a writer having lost its handle |
| `JournalRuns.TimelyRunIsSafe` | pfl/journal.c:946-985 | what a caller can see to: a run in which no unflagged transaction's group is committed before its writer has returned takes no handle away |
| `JournalRuns.SlotAssertionsHold` | pfl/journal.c:248-268 | in every reachable state the slot handed out is none of the pending ones, which fill the ring positions just before it; the three assertions hold |
| `JournalRuns.ReservationsCover` | pfl/journal.c:316-405 | slots in use plus unconsumed reservations never exceed the ring, and a transaction begun under a reservation is covered by the totals |
| `JournalRuns.WritePreservesLiveEntries` | pfl/journal.c:551-555 | a write goes to the slot that was claimed for it, and leaves the record of every other pending transaction intact in its slot |
| `JournalRuns.WriterFindsItsOwn` | pfl/journal.c:554-574 | a writer finds in its handle the slot it claimed and the flag of its record, and no buffer if the flag is not set; the data assertion holds |
| `JournalRuns.DistilledInOrder` | pfl/journal.c:896-949 | everything issued for distillation up to the published ID has been handled, in order and without gaps; the order assertion holds; all IDs in the log are at most the last one |
| `JournalRuns.ProgressIsMonotone` | pfl/journal.c:946-966 | from any reachable state to the next crash the distill cursor, the last ID and the committed group never go back, and the handled list only grows |
| `JournalRuns.DistilledThenCommitted` | pfl/journal.c:912-972 | a transaction distilled while group g is current keeps its handle, in every crash-free run, until a group after g is committed |
| `JournalRuns.DestroyIsSafe` | pfl/journal.c:307-314 | a reclaimed handle is on no list and has no buffer attached, so the destroy assertions hold; a writer uses it exactly if its transaction is exposed |
| `JournalRuns.BuffersConserved` | pfl/journal.c:427-467 | free buffers, those held by callers, those attached to handles and the one with the distill thread add up to the pool in every reachable state |
| `JournalRuns.RecoveryComplete` | pfl/journal.c:605-1060 | after a crash in any reachable state, with the slot being written left old, new or damaged, recovery is exact: every handler gets the intact entries due to it, once each, in order |
| `JournalRuns.NothingForgotten` | pfl/journal.c:681-698 | whatever this incarnation logged and the cursor does not cover is replayed or distilled after a crash, if its ID is above the replay cursor |
| `JournalLog.LoggedAsAsked` | pfl/journal.c:530-575 | in every run the log holds entries for exactly the writes that were claimed and completed, by the actions alone, each with the type and data given to that write, its ID, and the flag and group its transaction was begun with |
| `JournalLog.CurrentGroup` | pfl/journal.c:163-169 | the group of a transaction begun without one is the last one noted since the last crash, by the actions alone |
| `JournalLog.PayloadDelivered` | pfl/journal.c:605-1060 | after a crash in any such run the data given to a completed write reaches the handlers that the cursor leaves its entry to |
| `JournalLog.DistilledAsBegun` | pfl/journal.c:896-912 | in every run what has been handled and what is queued are together the transactions begun for distillation since the last crash, in the order begun, as many handled as were taken |
| `JournalLog.DistilledAsAsked` | pfl/journal.c:896-912 | the record the distill thread has in hand is the one that was asked for |
| `JournalRuns.IncarnationIdsAbove` | pfl/journal.c:183-230 | every transaction of an incarnation has an ID above the one its recovery ended with |
| `JournalRuns.ReplayFilterCondition` | pfl/journal.c:681-718 | every ID issued after a recovery passes the next recovery's replay filter if and only if the last ID on disk or in the distill cursor is not below the replay cursor it starts with |
| `JournalRuns.LostEntry` | pfl/journal.c:681-718 | where that condition fails an entry is lost: a reachable state with a complete, uncommitted entry on disk that recovery skips |
| `JournalHandles.LostHandle` | pfl/journal.c:551-574 | a reachable state and two steps after which a writer's handle is reclaimed before its record is written, so that it may find any slot there |
| `JournalHandles.ExposingSteps` | pfl/journal.c:236-275 | exactly which steps make the handle of an unfinished writer reclaimable: claiming a slot under a committed group, committing the group, and clearing the distill flag under a committed group |
| `JournalHandles.HandleCondition` | pfl/journal.c:530-575 | in every reachable state: no run that makes no further handle reclaimable under its writer loses one, if and only if none is reclaimable under its writer now |
| `JournalHandles.LoseHandle` | pfl/journal.c:307-392 | whenever one is, the other writers and the distill thread can go on until it, or that of another writer, is reclaimed under its writer |
| `Journal.PscJournal.constructor` | pfl/journal.c:1016-1094 | opening a journal yields the recovered state, for every disk: slots as they are, an empty ring from slot 0, 16384 buffers, the committed group and distill cursor given, and the exact last ID and replay cursor; it satisfies the invariant when formatted slots are a suffix and IDs are distinct and fit |
| `Journal.PscJournal.Request` | pfl/journal.c:322-324 | the running total counts a request at once |
| `Journal.PscJournal.TryReserve` | pfl/journal.c:330-388 | one turn of the reservation loop: granted exactly when reserve and use leave room; otherwise one reclaim, or the reason to wait |
| `Journal.PscJournal.ReclaimHead` | pfl/journal.c:384-387 | takes the head off the pending list, its handle and its slot away, and nothing else; the destroy assertions and the use count assertion hold |
| `Journal.PscJournal.Unreserve` | pfl/journal.c:394-405 | gives back exactly the given number of reservations; the reserve assertion holds |
| `Journal.PscJournal.SkipXid` | slash2/slashd/mdslog.c:344-348 | takes an ID without a transaction; IDs stay increasing |
| `Journal.PscJournal.NewTrans` | pfl/journal.c:196-230 | begins a transaction with the next ID, the flag and the group given or else the current one, at the end of the distill list if flagged; the totals assertion holds |
| `Journal.PscJournal.NextSlot` | pfl/journal.c:236-275 | claims the next ring slot and fills in magic number, type, flag, ID, group and data as given; the slot, range and reserve assertions hold |
| `Journal.PscJournal.WriteSlot` | pfl/journal.c:476-521 | puts the sealed record into the slot that its handle names and nowhere else |
| `Journal.PscJournal.HandOff` | pfl/journal.c:557-573 | by the flag of the handle, a record and its buffer go to the distill thread or to nobody; the data assertion holds |
| `Journal.PscJournal.ReturnSlot` | pfl/journal.c:574-574 | the slot in the handle is the one returned |
| `Journal.PscJournal.LogWrite` | pfl/journal.c:530-575 | claim, write, hand off and return are four steps of the machine; afterwards the slot holds an intact record with the data and type given and the flag, ID and group of the transaction |
| `Journal.PscJournal.AddEntry` | pfl/journal.c:410-425 | begin, claim, write, hand off and return are five steps of the machine; the slot is the next one and holds an intact record with exactly the type, flag, group and data given and the next ID |
| `Journal.PscJournal.DistillNext` | pfl/journal.c:896-940 | processes the head of the distill list exactly when it is written, clears its flag and moves its group behind the current one; the flag and order assertions hold |
| `Journal.PscJournal.DistillReady` | pfl/journal.c:896-940 | processes the longest written front of the distill list, in its order, giving each logged record to the handler |
| `Journal.PscJournal.PublishAndReclaim` | pfl/journal.c:946-985 | publishes the distill progress and reclaims until the head of the pending list is uncommitted or still to be distilled |
| `Journal.PscJournal.UpdateTxg` | pfl/journal.c:163-169 | notes the current transaction group |
| `Journal.PscJournal.GetBuf` | pfl/journal.c:427-448 | hands out the first buffer of the pool, which nobody else holds |
| `Journal.PscJournal.PutBuf` | pfl/journal.c:450-467 | takes a held buffer back to the end of the pool |
| `FtsTour.DepthBounded` | pfl/fts.c:866-893 | no walk goes deeper than the number of directories, whatever links and cycles there are |
| `FtsTour.BelowDepth` | pfl/fts.c:866-893 | below a directory, levels are at least its own and at most its own plus the number of directories not above it |
| `FtsTour.ShownSelects` | pfl/fts.c:679-681 | the entries listed are those whose name is neither "." nor "..", or all of them on demand, in the order of the directory |
| `FtsVisits.WalkIsTour` | pfl/fts.c:269-456 | the tour, said without following the walk: the places visited are exactly the ways down from the roots through listed entries and directories that are entered, each once on the way in and directories once more on leaving, with classification by kind, level and joined path, in the order of roots and directories |
| `FtsVisits.TourUnique` | pfl/fts.c:269-456 | that determines the tour: there is no other sequence of visits of which it is true |
| `FtsVisits.WalkSees` | pfl/fts.c:269-456 | what a walk sees in pre-order is exactly the ends of these ways: a way of n entries below its root has level n up to the maximum, its names joined by slashes, and the classification of its last entry |
| `FtsTour.LastVisit` | pfl/fts.c:788-817 | a directory is left with one visit on its level, as unreadable exactly when it is and is on the device of the walk, that shows its path, except exactly when it is readable and empty and the path ends in a slash |
| `FtsTour.EmptyRootLosesSlash` | pfl/fts.c:788-817 | a walk whose only root is an empty directory given with a slash: the post-order visit shows it without |
| `Fts.InChain` | pfl/fts.c:887-892 | the ancestor scan finds a directory if and only if it is on the chain |
| `Fts.Stat` | pfl/fts.c:866-899 | the classification of an entry against its ancestors |
| `Fts.Grow` | pfl/fts.c:985-1011 | more path space keeps the contents |
| `Fts.Store` | pfl/fts.c:404-406 | a name and its terminator land at an offset, what is before stays |
| `Fts.MaxArgLen` | pfl/fts.c:1041-1050 | room for every root name and a terminator, and no more |
| `Fts.OpenPath` | pfl/fts.c:661-667 | a slash goes behind the path unless it ends in one |
| `Fts.AddName` | pfl/fts.c:685-710 | a name fits behind the path, growing the buffer when it does not, and the path stays |
| `Fts.ClosePath` | pfl/fts.c:788-796 | the buffer is reset to the path with a slash, or to the path without one when there were no entries |
| `Fts.Build` | pfl/fts.c:572-824 | the entries of a directory in order, classified against the chain, with the path intact and room for every joined path |
| `Fts.Stream.constructor` | pfl/fts.c:84-192 | a new stream has the whole tour of its roots ahead |
| `Fts.Stream.Read` | pfl/fts.c:269-456 | a read returns the next visit of the tour, leaves the rest, and the path buffer shows the path of the entry returned, within its length |
| `Fts.Stream.Enter` | pfl/fts.c:314-364 | a directory in pre-order: post-order at once across devices, unreadable, or entered |
| `Fts.Stream.Descend` | pfl/fts.c:356-364 | entering a directory goes to its first entry, or leaves it at once when empty |
| `Fts.Stream.ReadEntries` | pfl/fts.c:572-824 | the tour below a directory is the tour of its entries and the way back up |
| `Fts.Stream.Next` | pfl/fts.c:366-422 | the next sibling, the next root, the way up or the end |
| `Fts.Stream.ToSibling` | pfl/fts.c:404-407 | the next entry of the level with its name in the path buffer |
| `Fts.Stream.LoadRoot` | pfl/fts.c:194-216 | the next root with its path in the buffer |
| `Fts.Stream.BackUp` | pfl/fts.c:410-455 | the directory above in post-order with its path in the buffer |
| `Fts.Open` | pfl/fts.c:84-192 | a walk is refused exactly when a root has no name, and otherwise has the whole tour ahead, which is the tour said without following the walk |
| `Fts.Walk` | pfl/fts.c:269-456 | reading a stream to its end terminates on every finite graph of directories and returns exactly the tour of the roots: each place that is to be visited in its order, with what its visit shows |
| `Fts.ChainLength` | pfl/fts.c:887-892 | no directory occurs twice on the chain of entered directories, so its length is at most the number of directories |
| `Fts.BaseIs` | pfl/fts.c:207-213 | the name of a root once it is current: what follows its last slash, if it has one and is not "/" |
| `OdtableFormat.OffApart` | pfl/odtable.c:148-148 | slots do not overlap |
| `OdtableFormat.HeaderRoundTrip` | pfl/odtable.c:354-437 | a header is loaded back as it was created |
| `OdtableFormat.HeaderLayout` | pfl/odtable.h:69-76 | where the fields of a header stand, and that its checksum covers them |
| `OdtableFormat.HeaderDamageCaught` | pfl/odtable.c:422-424 | damage to at most eight consecutive bytes of the fields makes a header fail to load |
| `OdtableFormat.WriteHolds` | pfl/odtable.c:128-165 | a slot write makes the slot hold what its footer says |
| `OdtableFormat.WriteElsewhere` | pfl/odtable.c:128-165 | no other slot changes |
| `OdtableFormat.WriteKeepsHeader` | pfl/odtable.c:128-165 | the header does not change |
| `OdtableFormat.HoldsChecks` | pfl/odtable.c:458-481 | a slot that was written passes the check, with what was written |
| `OdtableFormat.FooterParts` | pfl/odtable.c:215-232 | the fields of a footer are read back |
| `OdtableFormat.SlotLayout` | pfl/odtable.h:82-90 | where a slot stands, and the bytes of its footer: the flag, the number, and the checksum over these and the item in use |
| `OdtableFormat.VerdictIs` | pfl/odtable.c:456-481 | the verdict on any slot whatever by its bytes: another number is fatal, then a wrong checksum when checksums are on, then in use by the low bit of the flags |
| `OdtableFormat.BadSlotIs` | pfl/odtable.c:456-475 | a slot is bad exactly when its footer has another number in bytes 4 to 7, or its checksum is not that of the bytes it covers |
| `OdtableFormat.DamageCaught` | pfl/odtable.c:461-475 | damage to at most eight consecutive bytes of an item in use fails the checksum |
| `OdtableRuns.PutStored` | pfl/odtable.c:215-243 | putting, replacing or freeing one slot changes that slot's content and no other |
| `OdtableRuns.StoredChecks` | pfl/odtable.c:439-488 | the check of a stored table passes every slot and sees exactly what was stored |
| `OdtableRuns.StepKeepsInv` | pfl/odtable.c:245-352 | every step keeps file, bitmap and ownership in agreement |
| `OdtableRuns.RunKeepsInv` | pfl/odtable.c:245-352 | so does every run, with reloads anywhere |
| `OdtableRuns.StoredIsLastPut` | pfl/odtable.c:290-352 | the stored content is that of the last put by the actions alone |
| `OdtableRuns.Durability` | pfl/odtable.c:396-488 | stop a run anywhere and reload: the header is accepted, no slot fails, the slots in use are those last put in use with those contents, and the bitmap is slot 0 and these |
| `OdtableRuns.AllocIsFresh` | pfl/odtable.c:245-275 | a slot handed out is not slot 0, nobody else's and not in use on disk |
| `Odtable.LowestUnset` | pfl/vbitmap.c:433-439 | the lowest unset bit of a byte, or none exactly when the byte is full |
| `Odtable.NextUnset` | pfl/vbitmap.c:395-440 | the first byte that is not full from the rover around and its lowest unset bit; none only when every bit is set |
| `Odtable.PutSlot` | pfl/odtable.c:215-243 | the checksum over item and footer in two steps and the write are those of the format |
| `Odtable.Create` | pfl/odtable.c:354-394 | a new table has a loadable header and every slot free |
| `Odtable.LoadTableHeader` | pfl/odtable.c:396-424 | the header, or failure on a bad checksum |
| `Odtable.CheckOne` | pfl/odtable.c:456-481 | the verdict on one slot |
| `Odtable.Check` | pfl/odtable.c:439-488 | the first bad slot is fatal, and a slot whose footer has another slot's number, or a wrong checksum, always is; otherwise the bitmap gains exactly the slots in use and the callbacks are theirs in order |
| `Odtable.CallsExact` | pfl/odtable.c:477-481 | the callbacks of a stored table: one for each item, with its contents, in order of slots |
| `Odtable.Odt.constructor` | pfl/odtable.c:396-488 | loading and checking rebuilds bitmap and ownership from the file |
| `Odtable.Odt.AllocSlot` | pfl/odtable.c:245-275 | takes exactly one unset bit, the lowest of the first byte that is not full from the rover around; none only when all are set |
| `Odtable.Odt.PutItem` | pfl/odtable.c:290-296 | takes the put step: the slot then holds the item, or is free |
| `Odtable.Odt.ReplaceItem` | pfl/odtable.c:321-333 | the slot then holds the new item |
| `Odtable.Odt.FreeItem` | pfl/odtable.c:338-352 | the write on disk, then the bit: two steps of the machine |
| `Hashtbl.FirstIsEarliest` | pfl/hashtbl.c:250-264 | a search of the list finds the earliest match, or there is none |
| `Hashtbl.FirstOfKey` | pfl/hashtbl.c:250-264 | a search depends only on the items of its key, in their order |
| `Hashtbl.OfKeySelects` | pfl/hashtbl.c:250-264 | the items of a key are those of the list with that key, in its order |
| `Hashtbl.WithoutIs` | pfl/hashtbl.c:308-320 | removing an item closes its gap and moves nothing else |
| `Hashtbl.OfKeyWithout` | pfl/hashtbl.c:308-320 | removing an item leaves the order of the others of every key |
| `Hashtbl.GenerationAgrees` | pfl/hashtbl.h:47-47 | a 16-bit bucket generation agrees with its table exactly for the first 32768 generations |
| `Hashtbl.ItemAdded` | pfl/hashtbl.c:326-354 | adding to a bucket keeps every bucket in agreement with the list and its count exact |
| `Hashtbl.ItemRemoved` | pfl/hashtbl.c:265-269 | so does removing |
| `Hashtbl.MoveItem` | pfl/hashtbl.c:484-490 | moving the head of an old bucket to the tail of its new one keeps, for every key, new then old equal to the list |
| `Hashtbl.MoveAll` | pfl/hashtbl.c:477-492 | after all moves the new buckets agree with the list for every key, duplicates included |
| `Hashtbl.FindIn` | pfl/hashtbl.c:250-264 | the bucket walk finds the first match |
| `Hashtbl.HashTable.constructor` | pfl/hashtbl.c:67-112 | an empty table |
| `Hashtbl.HashTable.Get` | pfl/hashtbl.c:190-218 | the bucket of a key, when the generations agree |
| `Hashtbl.HashTable.Put` | pfl/hashtbl.c:148-183 | an old bucket dies on its last release, once, and the last one to die takes the old array |
| `Hashtbl.HashTable.AddItem` | pfl/hashtbl.c:343-354 | appends to the list of all items; every bucket is counted, at rest and holds items of its own place only |
| `Hashtbl.HashTable.Search` | pfl/hashtbl.c:220-272 | returns the item at the earliest position of the list with that key that the comparator accepts, or none when there is no such position, and removes exactly that item if asked |
| `Hashtbl.HashTable.Remove` | pfl/hashtbl.c:279-290 | removes exactly the item; the count assertion holds |
| `Hashtbl.HashTable.Resize` | pfl/hashtbl.c:453-503 | changes no item and no order, so no search result, whatever the new number of buckets |
| `Hashtbl.HashTable.Release` | pfl/hashtbl.c:498-502 | the old array is released with its last bucket and not before |
| `HeapOrder.UpOrdered` | pfl/heap.c:57-64 | bubbling up repairs a heap with one edge out of order |
| `HeapOrder.UpPermutes` | pfl/heap.c:57-64 | and keeps the items |
| `HeapOrder.UpExactly` | pfl/heap.c:57-64 | where bubbling up leaves everything: the item rises past the greater ones above it, up to the first that is not; these move down by one, and nothing else moves |
| `HeapOrder.DownOrdered` | pfl/heap.c:82-94 | bubbling down repairs a heap with the edges below one item out of order |
| `HeapOrder.DownPermutes` | pfl/heap.c:82-94 | and keeps the items |
| `HeapOrder.DownExactly` | pfl/heap.c:82-94 | where bubbling down leaves everything: the item sinks past its lesser child, the left one of two equal ones, while that is less; these move up by one, and nothing else moves |
| `HeapOrder.AddedOrdered` | pfl/heap.c:41-65 | adding keeps the order and adds exactly one item |
| `HeapOrder.RemovedOrdered` | pfl/heap.c:67-95 | removing any item keeps the order if and only if the item that fills the hole is not less than what is above it |
| `HeapOrder.RemovedPermutes` | pfl/heap.c:67-95 | removing takes exactly that item out |
| `HeapOrder.RemoveCanBreakOrder` | pfl/heap.c:67-95 | a heap of six items that a removal from the middle leaves out of order |
| `HeapOrder.RekeyedIsAround` | pfl/heap.c:131-136 | a changed key leaves the heap in order around its item |
| `HeapOrder.RootIsLeast` | pfl/heap.c:112-129 | the first item is a least one |
| `Heap.PflHeap.SwapItems` | pfl/heap.c:30-39 | exchanges two items and keeps every back-index |
| `Heap.PflHeap.Add` | pfl/heap.c:41-65 | the specified result, with every back-index right: one item more, and the order kept |
| `Heap.PflHeap.Remove` | pfl/heap.c:67-95 | the specified result, with every back-index right, for any item: that item less, and the order kept if and only if what fills the hole fits |
| `Heap.PflHeap.LeastChild` | pfl/heap.c:84-89 | the least of an item and its children |
| `Heap.PflHeap.Peek` | pfl/heap.c:112-118 | the first item, or none when empty |
| `Heap.PflHeap.Shift` | pfl/heap.c:120-129 | returns a least item, removes exactly it and keeps the order |
| `Heap.PflHeap.Reseat` | pfl/heap.c:131-136 | keeps the items, and restores the order after a key change if and only if what fills the hole fits |
| `HeapOrder.ReseatedOrdered` | pfl/heap.c:131-136 | removing any item and adding it again keeps the items, and leaves the heap in order if and only if what fills the hole fits |
| `HeapOrder.ReseatCanBreakOrder` | pfl/heap.c:131-136 | a heap of six items that reseating one of them leaves out of order |
| `Heap.Drain` | pfl/heap.c:120-129 | shifting until empty gives a sorted permutation of what was there |
| `Dynarray.SpliceRight` | pfl/dynarray.c:267-290 | splicing gives the spliced sequence when nothing is removed, no more is added than removed, or there is no tail |
| `Dynarray.SpliceWrong` | pfl/dynarray.c:285-286 | in every other case it is wrong for every memory without repetitions |
| `Dynarray.SpliceCondition` | pfl/dynarray.c:267-290 | so that condition holds if and only if splicing works whatever the contents |
| `Dynarray.SpliceCells` | pfl/dynarray.c:283-289 | the moved tail and the copied items, cell by cell |
| `Dynarray.ReverseSubsequence` | pfl/dynarray.c:109-119 | what the exchange loop leaves in every cell in every case, and that it reverses at the front |
| `Dynarray.ReverseRight` | pfl/dynarray.c:109-119 | the loop reverses a range at the front or of at most one item |
| `Dynarray.ReverseWrong` | pfl/dynarray.c:109-119 | and no other range of different items |
| `Dynarray.ExchangesAt` | pfl/dynarray.c:116-118 | the exchanges cell by cell: from the start of the range to half of its length, each with its mirror image |
| `Dynarray.PscDynarray.EnsureLen` | pfl/dynarray.c:94-103 | room for n items, contents kept, new cells empty |
| `Dynarray.PscDynarray.Add` | pfl/dynarray.c:127-136 | appends one item |
| `Dynarray.PscDynarray.RemovePos` | pfl/dynarray.c:227-238 | the last item takes the place of the one removed |
| `Dynarray.PscDynarray.Splice` | pfl/dynarray.c:267-290 | the exact memory in every case, and the spliced sequence under the condition |
| `Opstats.StrCmpTrans` | pfl/opstats.c:41-48 | string comparison is transitive |
| `Opstats.StrCmpSwap` | pfl/opstats.c:41-48 | and antisymmetric |
| `Opstats.StrCmpEqual` | pfl/opstats.c:41-48 | and zero exactly for equal names |
| `Opstats.StrCmpIs` | pfl/opstats.c:41-48 | strings compare by the first character that differs, and a proper prefix is less |
| `Opstats.PlaceUnique` | pfl/dynarray.c:304-332 | there is one place where a name belongs |
| `Opstats.Bsearch` | pfl/dynarray.c:304-332 | bisection returns that place, and finds a name exactly when it is there |
| `Opstats.InsertSorted` | pfl/opstats.c:74-78 | inserting at that place keeps the list strictly sorted |
| `Opstats.RemoveSorted` | pfl/opstats.c:83-92 | so does removing any position |
| `Opstats.OneOfName` | pfl/opstats.c:94-105 | no name occurs twice |
| `Opstats.Registry.Create` | pfl/opstats.c:50-81 | returns the statistic of the name cut to 127 characters: the existing one unchanged, or a new one spliced in at its place; always a new one under the exclusive flag |
| `Opstats.Registry.Destroy` | pfl/opstats.c:94-105 | removes exactly the given statistic; the identity assertion holds |
| `Pack.BuffersApart` | pfl/packgeneric.c:299-303 | buffers are disjoint, in order and inside the message |
| `Pack.WireSize` | pfl/packgeneric.c:153-164 | a packed message has exactly the computed size |
| `Pack.WireFields` | pfl/packgeneric.c:51-72 | count and lengths are read back in the sender's byte order |
| `Pack.WireLaid` | pfl/rpc.h:290-304 | where every field of a message stands, in the sender's byte order, with the magic number and the version written out |
| `Pack.HostedLaid` | pfl/packgeneric.c:190-238 | an unpacked message from a sender of either byte order has every field at the same place in the receiver's order |
| `Pack.SizesAre` | pfl/packgeneric.c:153-164 | header and buffers each take their length rounded up to eight bytes |
| `Pack.WireHosted` | pfl/packgeneric.c:190-238 | unpacking a message of either byte order gives the message of a sender of the receiver's order, but for handle and magic |
| `Pack.BodyAt` | pfl/packgeneric.c:67-71 | every buffer stands at its computed offset |
| `Pack.RoundTrip` | pfl/packgeneric.c:51-304 | for any fields and buffers whose message size fits an int, and either byte order: the message is accepted and every buffer is found where it is looked for |
| `Pack.SizeRoundIs` | pfl/packgeneric.c:225-238 | rounding in 32 bits is rounding, cut to 32 bits |
| `Pack.UnpackCondition` | pfl/packgeneric.c:205-249 | the code accepts exactly the messages that are long enough and stays inside them, if and only if the sizes in the header do not overflow an int or not so that it matters |
| `Pack.UnpackExact` | pfl/packgeneric.c:205-249 | in particular when header and buffers together stay below 2^31 |
| `Pack.OverflowAccepted` | pfl/packgeneric.c:234-246 | a message of 72 bytes that announces a buffer of 2^31 bytes is accepted |
| `PackOps.ComputeMsgSize` | pfl/packgeneric.c:153-164 | the size of a message with the given lengths, cut to 32 bits, and exact when it fits |
| `PackOps.MsgBuf` | pfl/packgeneric.c:274-304 | the offset of a buffer, exact when the message size fits an int, or none when it is absent or too short |
| `PackOps.Swab` | pfl/packgeneric.c:213-223 | one field turned around, nothing else |
| `PackOps.SwabHeader` | pfl/packgeneric.c:213-223 | all header fields turned around, nothing else |
| `PackOps.SwabLens` | pfl/packgeneric.c:234-238 | the lengths turned around and added up in 32 bits |
| `PackOps.Unpack` | pfl/packgeneric.c:166-249 | the verdict of 32-bit sums on a message of either byte order; where the sizes hold, accepts exactly the messages that are long enough for what their header says; what is accepted says the same in the host's order, field by field |
| `PackOps.HostedSays` | pfl/packgeneric.c:190-238 | turning any message around leaves handle and magic, keeps the value of every other field, and leaves what follows the lengths alone |
| `PackOps.UnpackSame` | pfl/packgeneric.c:205-249 | the verdict of 32-bit sums on a message in the host's order, which stays as it is |
| `PackOps.UnpackOther` | pfl/packgeneric.c:190-249 | the verdict of 32-bit sums on a message in the other order, which is turned around |
| `PackOps.PackMsg` | pfl/packgeneric.c:51-108 | packs exactly the wire message of the given buffers: magic number, version, count and lengths at their places, every other field zero, and every buffer at its offset, with zeros for buffers not given |
| `PackOps.InitHeader` | pfl/packgeneric.c:58-62 | magic, version, count and lengths, every other field zero |
| `PackOps.InitBodies` | pfl/packgeneric.c:67-71 | buffers copied to their rounded offsets, header untouched |
| `Multiwait.TryLockAll` | pfl/multiwait.c:82-102 | locks all or none: success exactly when all were free, otherwise every lock as before |
| `Multiwait.UnlockFirst` | pfl/multiwait.c:94-98 | releases exactly the first j |
| `Multiwait.WakeAfter` | pfl/multiwait.c:208-238 | a condition open for a winner has had a wakeup after every earlier win |
| `Multiwait.StepKeepsInv` | pfl/multiwait.c:208-510 | every locked region keeps the accounting of wakeups and wins |
| `Multiwait.RunKeepsInv` | pfl/multiwait.c:208-510 | so does every interleaving |
| `Multiwait.SingleWinner` | pfl/multiwait.c:416-510 | over every interleaving a condition that does not wake all has at most as many wins in its history as wakeups, and a wakeup between any two wins |
| `Multiwait.AtMostOneReturnPerWakeup` | pfl/multiwait.c:416-510 | over every interleaving, counted from the steps of the multiwaits: at most as many waits for a condition that does not wake all end in success as it had wakeups |
| `Multiwait.ReturnsApart` | pfl/multiwait.c:482-510 | after one such return there is no other until the next wakeup of the condition |
| `Multiwait.LeavingIsReturning` | pfl/multiwait.c:501-510 | no wait ends in success but by a decision on the condition seen |
| `Multiwait.DecisionOutcome` | pfl/multiwait.c:482-506 | over every interleaving one that decides on a condition that does not wake all returns if and only if nobody has since its last wakeup, and otherwise is to look again |
| `Multiwait.LoserLooksAgain` | pfl/multiwait.c:501-506 | one that is to look again does nothing else, in any run, before it has |
| `Multiwait.WakeAllReturns` | pfl/multiwait.c:482-499 | over every interleaving everyone who decides on a condition that wakes all returns |
| `Multiwait.TakenOnce` | pfl/multiwait.c:440-482 | over every interleaving a wakeup is taken at most once by each multiwait it reaches |
| `Multiwait.NobodyStuck` | pfl/multiwait.c:416-510 | over every interleaving everyone has a next step but those asleep whom no wakeup has reached; a decision waits only for the end of the wakeup under way |
| `Multiwait.ReachedByMask` | pfl/multiwait.c:208-238 | over every interleaving a wakeup reaches exactly those registered for its condition and let through by the last change of their mask |
| `Multiwait.StepTouches` | pfl/multiwait.c:208-510 | what each step leaves alone: the multiwaits and conditions it is not about |
| `Multiwait.WaitAssertionsHold` | pfl/multiwait.c:469-510 | over every interleaving a signal comes with the condition that sent it, and a win leaves a critical section that was entered |
| `Multiwait.LookTakes` | pfl/multiwait.c:440-482 | the next look takes a waker, and clears it, exactly when a wakeup is kept: signalled while asleep, or marked while flagged; otherwise the multiwait goes to sleep |
| `Multiwait.WakeupKept` | pfl/multiwait.c:208-238 | over every interleaving the last wakeup to reach a multiwait before it looks is kept if and only if the multiwait was asleep and does not time out, or was in its critical section and has neither left nor entered it since |
| `Multiwait.WakerIsLast` | pfl/multiwait.c:225-232 | the waker that is taken is that of the last condition whose wakeup reached the multiwait |
| `Multiwait.LostWakeup` | pfl/multiwait.c:440-472 | a run in which a multiwait outside its critical section goes to sleep on a wakeup that has reached it |
| `Multiwait.TimedOutWakeup` | pfl/multiwait.c:461-464 | a run in which a multiwait is signalled while asleep, times out, and goes to sleep again on the wakeup |
| `Multiwait.FirstDeciderWins` | pfl/multiwait.c:482-499 | after a wakeup, whatever happens in between, the first multiwait to decide on the condition becomes the winner |
| `Pool.StepKeepsInv` | pfl/pool.c:324-754 | every locked region keeps the total equal to free plus handed out, with no object in both and none free twice |
| `Pool.RunKeepsInv` | pfl/pool.c:324-754 | so does every interleaving |
| `Pool.NotBelowMinimum` | pfl/pool.c:381-417 | only shrinking and returning lower the total, and never below the minimum |
| `Pool.StaysAboveMinimum` | pfl/pool.c:381-417 | a run stays at or above a fixed minimum |
| `Pool.LimitsAre` | pfl/pool.c:424-467 | over every interleaving the limits are those set last |
| `Pool.AddsWithinGrant` | pfl/pool.c:324-379 | over every interleaving a call to grow adds no more than it may, and nothing once it has stopped |
| `Pool.StepPromised` | pfl/pool.c:324-379 | the total that all calls to grow may lead to is raised only by a new call, by its grant, in any step that leaves the limits alone |
| `Pool.StaysWithinMaximum` | pfl/pool.c:324-379 | growing never passes the maximum as long as calls to grow do not overlap |
| `Pool.OverlapExceeds` | pfl/pool.c:369-376 | two calls that overlap can pass it |
| `Pool.MaximumCondition` | pfl/pool.c:324-379 | no continuation of the calls already begun passes the maximum if and only if the total and what they may still add fit under it |
| `Pool.PoolMgr.constructor` | pfl/pool.c:174-246 | an empty pool with its limits |
| `Pool.PoolMgr.TryGrow` | pfl/pool.c:324-379 | adds as many objects as asked; it stops short only when the memory is used up or a maximum above zero is reached, and passes neither |
| `Pool.PoolMgr.TryShrink` | pfl/pool.c:381-417 | frees as many objects as asked from the front of the free list; it stops short only when that is empty or the minimum is reached |
| `Pool.PoolMgr.SetTotal` | pfl/pool.c:424-442 | moves the total towards the wanted one between the limits, and stops short only at the free list, the memory or a limit |
| `Pool.PoolMgr.Resize` | pfl/pool.c:450-467 | moves the total back between the limits, and stops short only at the free list, the memory or the other limit |
| `Pool.PoolMgr.TryGet` | pfl/pool.c:572-574 | takes the first free object, or none |
| `Pool.PoolMgr.Return` | pfl/pool.c:715-754 | lets the object go if and only if the pool is automatic, above its minimum, and above its maximum or with more free than the threshold's share of the total; otherwise keeps it |
| `Pins.RunKeepsInv` | pfl/fs.c:53-108 | the accounting of readers and writer holds over every interleaving |
| `Pins.Exclusion` | pfl/fs.c:53-108 | the count is the number of readers; a writer past its drain loop has no readers beside it and shuts out readers and writers |
| `Pins.ReadersAre` | pfl/fs.c:53-78 | over every interleaving each thread is among the readers as often as it has pinned and not unpinned, by the actions alone |
| `Pins.WriterIs` | pfl/fs.c:81-108 | over every interleaving the writer is where its last step has brought it |
| `Pins.NobodyStuck` | pfl/fs.c:53-108 | over every interleaving anybody is let in when there is no writer, and a draining writer enters as soon as there are no readers |
| `Pins.NoneAdmitted` | pfl/fs.c:81-97 | while a writer drains or writes, readers only get fewer and the writer stays the same |

## Left out

- I/O errors, short writes, retries and timing of journal and table files; a slot write is atomic in
  the table, and in the journal may leave the old record, the new one or a damaged one.
- The committed transaction group is a number that never goes back; the warning path for a snapshot
  that sets it back (pfl/journal.c:958-964) is not modelled.
- A damaged slot is taken to fail its magic or its checksum; what the checksum cannot detect is outside
  the model. The file system's cursor after a crash is arbitrary where a theorem does not say otherwise.
- Spinlocks, mutexes, wait queues and statistics counters: a locked region is one step, waiting is a step
  that is not enabled.
- Journal.PscJournal.Unreserve: which of the returned reservations were never consumed is known to the
  callers and given as a ghost argument.
- Journal.PscJournal.NewTrans: transaction IDs are taken not to wrap around at 2^64.
- Journal.PscJournal.SkipXid: likewise.
- Journal.PscJournal.AddEntry: likewise.
- What a writer does with a handle that is no longer its own is modelled as reading anything there and
  leaving its buffer with any transaction; no theorem speaks of what follows.
- Reading and writing the journal header, pjournal_open and pjournal_release.
- The walker's change-directory mode, the link-count shortcut, caller instructions (skip, follow, again),
  fts_children, sorting of entries and allocation failures; the kind of an entry is what stat reports, and
  the file system does not change during the walk.
- Fts.Grow: lengths do not wrap around, and memory does not run out.
- Extension of a full table (pfl/odtable.c:256-270): the bitmap of a full table grows by itself
  (pfl/odtable.c:426), and the code then calls the resize operation, which the default operations do not
  have (pfl/odtable.c:211). The model stops at reporting that the table is full.
- Odtable.Create: slots are taken to start behind the header, to have no padding and to be at least one;
  the code asserts only the padding.
- Odtable.NextUnset: a full bitmap is reported as full; its growth to twice the size is left out.
- Odtable.Odt.AllocSlot: a full table refuses, as above.
- Odtable.Odt.constructor: opens files that hold a table; on others the code ends the program.
- Odtable.Odt.PutItem: callers put only into slots they own, which the code does not check.
- Odtable.Odt.ReplaceItem: callers replace only items in slots they own, which the code does not check.
- Odtable.Odt.FreeItem: callers free only slots they own, which the code does not check.
- Lookups during a resize of the hash table, hash functions, table statistics and the lookup callback.
- Hashtbl.HashTable.Get: is stated for the generations in which it returns.
- Hashtbl.HashTable.AddItem: is stated for the same generations.
- Hashtbl.HashTable.Search: is stated for the same generations.
- Hashtbl.HashTable.Remove: is stated for the same generations.
- Allocation of heap and array memory beyond its effect on the contents; 32-bit overflow of positions.
- PackOps.PackMsg: is stated for messages whose size fits an int; for others the code allocates too little.
- Destroying or resetting multiwaits and conditions, spurious wakeups, and fairness among those who wait.
- The blocking part of psc_pool_get: reclaim callbacks, reaping of other pools and waiting.
- pfl_base64_encode, psc_crc32_add, logging, control messages, sockets, FUSE glue and thread management.
