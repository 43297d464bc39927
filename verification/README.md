# Kronos: verified core

This project models the parts of Kronos, a database backup system, whose correctness
is hardest to see from the code, and proves what they are for.

- **The embedded key-value store.** A B+Tree on 4096-byte pages with its own node
  format, a free list threaded through the pages, a rollback log that is a copy of the whole
  file, prefix-encoded buckets, and a repair pass. The tree is proved against the map it stands
  for, the pages against the tree, and the log as a step system with crashes between any two
  file-system calls.
- **The chunk repository.** Content-defined chunking over a refilling buffer, a
  Bloom-filtered index, the encrypted envelope, the concurrent hash/encode/upload graph as
  interleaved steps of its workers, restore, and mark-and-sweep collection over the life of a
  repository.
- **The decision engines.** The jump-ahead cron search, daily windows, the catch-up
  cursor of the scheduler, retention rules with the protection of ancestors, and the restore
  planner.

Code that works by changing things keeps that form: pages, arrays of plan items, the pager, the
tree, iterators, the index, the reader and the backend are classes or arrays with loops, and each
method is proved against a specification on values. Protocols (the log, the pipeline, a
repository's life) are step functions over events, and their theorems range over every run.

## Main results

| area | result |
|---|---|
| tree | `BTree.BTree.Put`, `BTree.BTree.Delete`, `BTree.BTree.Get` against a map, at any height |
| size bound | `BTree.BTree.Put`, `BTree.BTree.Delete`: exactly when there is no room; `TreePut.HalvesFit`: never with pairs of at most 120 bytes |
| scans | `RangeScan.ScanAll`, `Bucket.ScanWhole` |
| transactions | `Transactions.DB.Update`: all operations or none, and exactly when not; `History.ScanPlayed` over any number of them |
| crash atomicity | `Sessions.SessionHolds`: the pairs after any transactions, deaths, crashes and recoveries; `Sessions.TransactionCommits`: a transaction can always return nil; `StaleLog.SettledUnlessStale`, `LostLog.UndoneIffPrudent`: exactly when the log is enough |
| repair | `Repair.Repair`, `Repair.RepairKeepsTree` |
| chunking | `Streaming.ForEach` and `Streaming.StreamExact`: exactly when the loop refines a function of the input; `FastCdc.Resynchronize`, `FastCdc.CutIsLocal` |
| backup and restore | `Feed.BackupRestores`, in every interleaving and against altered backends; `Feed.FeedSizes`; `Progress.FeedEnds`; `Cancellation.SuccessIsComplete` |
| repository | `Repository.EveryManifestRestores`, `Repository.GcExact`, `Repository.GcFinishes` |
| schedules | `Cron.Next` is the least match; `Scheduler.RunConfluent`, `Scheduler.TickExact`, `Scheduler.TickJobs`; `Calendar.MonthStartIs` |
| retention | `RetentionLaws.PlansSurvive`, `RetentionLaws.Idempotent`; `RuleLaws.RuledKeeps` and a law for each rule, `RuleLaws.SizeWithinLimit` among them |

## Properties that hold under a condition

Some properties one would expect do not hold for all inputs. The model keeps the code's behaviour,
shows an input on which each fails, and states exactly when it holds.

- Deleting leaves a valid tree except exactly when the last key below a root branch goes
  (`BTree.BTree.Delete`, `TreeDelete.NoTree`); `DeleteLimits.LoneTree` is such a tree. The root
  branch without entries that is left refuses lookups and deletions and panics on a put.
- Deleting keeps the leaf chain in order exactly when no leaf other than the first is emptied
  (`TreeDelete.ChainAfterDelete`); `DeleteLimits.PairTree` is a tree on which one is. Scans are
  stated for trees whose chain is in order.
- A put is refused for lack of room exactly when some node on its way outgrows its page and cannot be cut
  in two that fit (`BTree.BTree.Put`); an empty tree refuses a value larger than a page
  (`Refusals.TooLarge`). A delete is refused exactly when some branch on its way has no room for the
  separators it gets (`BTree.BTree.Delete`), as on `Refusals.TightSwells`.
- A crash leaves what the latest Update allows exactly when it brings back no log of an earlier
  Update (`StaleLog.SettledUnlessStale`). As long as no Update starts on a half-changed file, it can do
  that only when a process died between the removal of a log and the directory sync, or that sync
  failed (`StaleLog.CarefulAtomic`), and then it can on any database (`StaleLog.StaleLogReturns`).
- A transaction that fails is undone by its rollback exactly when it did not fail for want of a page:
  a file that does not grow has lost its mapping, so the pager cannot be closed cleanly and the rollback
  stops there (`Transactions.DB.UpdateOpen`, `Transactions.DB.Rollback`); `FullDisk.Overfill` is a
  transaction to which this happens.
- An Update that returned an error and left its log in place is undone by the next Open, but not once
  another Update has started on the file, unless it had changed nothing (`LostLog.UndoneIffPrudent`). What
  it wrote can then stay on any database, without a crash (`LostLog.FailedUpdateStays`,
  `Sessions.FailedTransactionStays`, `FullDisk.HalfTransaction`).
- A committed manifest restores exactly when it has at most 64 MiB, which is the most that is read back
  and not the most that is written (`Repository.EveryManifestRestores`). Collections can run to their end
  exactly while no stored manifest has more (`Repository.GcFinishes`). Whatever the format, some backup has a
  larger one (`Oversize.CommittedAndLost`).
- A Feed without an error has described every chunk exactly when no worker gave one up, which
  happens only when the caller cancelled (`Cancellation.SuccessIsComplete`,
  `Cancellation.SilentLoss`).
- A parsed envelope header is written back unchanged exactly when its algorithm byte is a known
  one, since the parser accepts any (`Envelope.ParseRoundTrip`, `Envelope.UnknownAlgorithm`).
- The size rule keeps within its limit exactly when no 64-bit sum overflows; an overflowing sum is
  negative and selects the backup (`RuleLaws.SizeWithinLimit`, `RuleLaws.LimitExceeded`).
- The chunks are those of the input exactly when every buffer is cut where all the bytes left would be
  (`Streaming.StreamExact`). That is so whatever the fragments as long as no read returns no bytes and no
  error (`Streaming.NoIdleTrue`). One that does may end a buffer early, and ends the stream when the
  buffer is empty (`Streaming.SplitNothing`).

## Conventions

- Bytes are integers from 0 to 255; byte strings are compared through `Bytes.Rank`, an order
  embedding into the reals, so that transitivity is linear arithmetic.
- Integers are unbounded. Where the width matters it is written out: 16- and 64-bit page fields,
  fingerprints and Bloom probes modulo 2^64, the sums of the size rule.
- The cipher, the compressors, the hash, JSON with its signature, and the offset hash of windows
  are function parameters. Decryption and decompression are assumed to invert encryption and
  compression, parsing a manifest to invert encoding it, and no other bytes to have the hash of a
  chunk that was backed up.
- Errors of the outside world (a failed read, list, put, delete or growth of the file) are
  nondeterministic choices of the modelled interface.
- A step of the log protocol is one file-system call, or the failure of one that makes Update or Open
  return an error. The process may die between any two of them, which leaves the disk as it is; closing
  the database and opening it again is such a death. A crash returns the directory to any state since
  it was last synced and gives arbitrary contents to every file written but not synced.
- An Update whose very last directory sync fails counts as cut off: it returns an error, its log is gone,
  and its effect is there unless a crash brings the log back.

## Model

| member | source | states |
|---|---|---|
| Bytes.Compare | internal/kvstore/btree.go:482-501 | three-way comparison agrees with the lexicographic order of keys that every other statement is written in |
| Bytes.RankIsOrder | internal/kvstore/btree.go:490-501 | keys embed into the reals in their lexicographic order, so equal ranks mean equal keys |
| Entries.LowerBound | internal/kvstore/btree.go:490-501 | binary search: everything before the returned index is below the key, the entry at it is not |
| Entries.Search | internal/kvstore/btree.go:482-488 | finds the index of the key exactly when the sorted list has it |
| Entries.InsertEntry | internal/kvstore/btree.go:630-640 | shifting insertion equals ordered insertion, replacing an entry with the same key |
| Entries.DeleteEntry | internal/kvstore/btree.go:642-650 | shifting deletion equals removal, and reports whether the key was there |
| Entries.SplitEntries | internal/kvstore/btree.go:652-662 | the two parts concatenate to the list, differ by at most one entry when there are two or more, and the first is never empty |
| Entries.AsMapInsert | internal/kvstore/btree.go:630-640 | inserting into a sorted list updates the map it stands for |
| Entries.AsMapRemove | internal/kvstore/btree.go:642-650 | removing from a sorted list removes exactly that key from the map |
| Entries.InsertSorted | internal/kvstore/btree.go:630-640 | insertion keeps the list sorted and above any floor it was above |
| NodePage.DecodeNode | internal/kvstore/btree.go:538-587 | decoding succeeds exactly on pages that hold a well-formed node, and returns that node |
| NodePage.ReadsUnique | internal/kvstore/btree.go:538-587 | a page holds at most one node |
| NodePage.WriteNode | internal/kvstore/btree.go:589-620 | fails exactly when the node does not fit; otherwise the page reads back as the node, so encoding and decoding are inverse |
| NodePage.WriteEntries | internal/kvstore/btree.go:589-620 | the directory grows up and the heap down without meeting, for every entry list that fits |
| NodePage.NodeFits | internal/kvstore/btree.go:622-628 | the summing loop decides the 4096-byte bound |
| FreeList.MetaRoundTrip | internal/kvstore/pager.go:263-302 | the meta page written for any metadata in range reads back as that metadata |
| FreeList.ChainUnique | internal/kvstore/pager.go:304-328 | the pages determine the free list |
| Pager.Pager.AllocPage | internal/kvstore/pager.go:138-177 | hands out a zeroed page that is neither free nor in use, from the list before growing; fails only when the list is empty and the file does not grow, which it may refuse at any time, and then the pages are whole and the mapping is lost; list, set and counter stay in step |
| Pager.Pager.Close | internal/kvstore/pager.go:93-118 | closes the pager, and succeeds exactly when it was closed already or still had its mapping |
| Pager.Pager.FreePage | internal/kvstore/pager.go:180-206 | accepted exactly for a known page that is not free; then the page joins the list, the set and the count, and nothing else changes |
| Pager.Pager.StoreNode | internal/kvstore/btree.go:589-620 | writes the node to its page exactly when it fits and leaves every other page and the free list alone |
| Pager.Pager.ReadNode | internal/kvstore/btree.go:461-467 | returns the node of a page that holds one |
| Pager.Pager.SetRootPage | internal/kvstore/pager.go:249-261 | records a root in range and keeps everything else |
| OpenPager.RebuildFreeSet | internal/kvstore/pager.go:304-328 | the walk succeeds exactly when the pages hold a free list of the stated length, and then returns its set |
| OpenPager.ReadMeta | internal/kvstore/pager.go:263-286 | succeeds exactly on a page with the magic, version, page size and fields of some metadata |
| OpenPager.Open | internal/kvstore/pager.go:59-90 | a non-empty file opens exactly when it is whole pages whose meta page and free list are sound, with the state they describe; an empty file gets one meta page |
| PageFile.ConcatPages | internal/kvstore/pager.go:59-90 | a file made of pages splits into those pages again |
| PageFile.PagesSized | internal/kvstore/pager.go:59-90 | a file of whole pages is the concatenation of its pages |
| OpenPager.ReopenSame | internal/kvstore/pager.go:304-328 | for every valid pager, reopening its pages gives the same metadata, list and free set |
| TreeIO.ChildIndexFor | internal/kvstore/btree.go:503-529 | routes a key to the last separator not above it, or the first child; -1 for a branch without entries |
| TreeIO.GetAt | internal/kvstore/btree.go:139-160 | descending by separators finds exactly what the map of the tree holds, at any height |
| TreePut.HalvesFit | internal/kvstore/btree.go:622-662 | with pairs of at most 120 bytes, a node that outgrew its page by a grown separator and a new entry splits by count into halves that both fit 4096 bytes |
| TreePut.ChainedPut | internal/kvstore/btree.go:224-245 | splitting a leaf keeps the chain of leaves in order |
| TreePut.PendingBranch | internal/kvstore/btree.go:186-222 | replacing the routed child of a branch by what it has become gives the branch of the new tree, separators included |
| PutPages.SplitNonRoot | internal/kvstore/btree.go:224-245 | the left half stays on its page, the right half goes to a fresh page, and the parent gets its first key |
| PutPages.PutNonRoot | internal/kvstore/btree.go:186-222 | a subtree becomes one or two subtrees of the same height holding the old entries with the pair put in, touching only its own and fresh pages, and taking as many as foreseen from the tree and the pair; it fails exactly as foreseen |
| PutPages.SplitRoot | internal/kvstore/btree.go:247-303 | an oversized root becomes a branch over two fresh pages that together hold its entries |
| PutPages.PutRoot | internal/kvstore/btree.go:162-184 | the whole tree with the pair put in, at the same root page |
| TreeDelete.ChainAfterDelete | internal/kvstore/btree.go:305-354 | after a deletion the leaf chain is in order if and only if no leaf other than the first was emptied |
| TreeDelete.NoTree | internal/kvstore/btree.go:121-133 | a branch without entries at the root page is the root of no tree |
| TreeDelete.RootCollapsed | internal/kvstore/btree.go:121-133 | copying the only child into the root page does not change the map |
| DeletePages.DeleteFromBranch | internal/kvstore/btree.go:305-354 | removes the key below a branch, unlinks and frees emptied nodes, refreshes separators to the least keys, touches only pages of the subtree; it fails exactly when a branch on the way swells past its page |
| DeletePages.DeleteRoot | internal/kvstore/btree.go:94-137 | the whole tree without the key, collapsed when one child is left |
| Room.NoneOutgrown | internal/kvstore/btree.go:162-303 | where no node on the way of the key outgrows its page, a put takes no new page and is not refused |
| Room.NoLongerFits | internal/kvstore/btree.go:305-354 | where no child on the way of the key gets a longer least key, a delete is not refused |
| Room.RestFits | internal/kvstore/btree.go:305-354 | the separators a delete writes fit exactly when those foreseen from the tree and the key do |
| Refusals.TooLarge | internal/kvstore/btree.go:64-91 | an empty tree refuses every value larger than a page |
| Refusals.TightSwells | internal/kvstore/btree.go:94-137 | a valid tree on which deleting a key is refused, since the root has no room for the longer separator |
| BTree.BTree.Get | internal/kvstore/btree.go:53-61 | lookup equals the map; an empty key is refused, and a root branch without entries gives the error for a node without entries |
| BTree.BTree.Put | internal/kvstore/btree.go:64-91 | a valid tree of any height becomes a valid tree for the map with the pair, owning exactly its pages, leaf chain in order if it was; it fails for lack of room in a page exactly when some node on the way of the key outgrows its page and a half of it does not fit, never with pairs of at most 120 bytes, and for want of a page only when fewer pages are free than those nodes take; it panics exactly on a root branch without entries; an error leaves whole pages, and the mapping exactly when it is not for want of a page; a root leaf that finds no page for its halves stays as it was |
| BTree.BTree.Delete | internal/kvstore/btree.go:94-137 | the map without the key and a valid tree, except exactly when the last key below a root branch goes, which leaves a root branch without entries; the chain stays in order exactly when no inner leaf is emptied; it fails exactly when some branch on the way does not fit its page with the least keys of the tree without the key for separators; a missing key touches no page; an error leaves whole pages and the mapping |
| DeleteLimits.LoneTree | internal/kvstore/btree.go:94-137 | a valid tree, of the kind left when the root of a taller one takes over a branch with one leaf, whose next deletion leaves a root branch without entries |
| DeleteLimits.PairTree | internal/kvstore/btree.go:305-354 | a valid tree with its chain in order whose second leaf a deletion empties |
| BTree.BTree.PagesOwned | internal/kvstore/btree.go:64-137 | no page of a valid tree is free, out of range or the meta page |
| BTree.CreateBTree | internal/kvstore/btree.go:29-42 | an empty valid tree, or none, which happens only when no page is free |
| RangeScan.FirstLeafAt | internal/kvstore/btree.go:442-459 | everything in earlier leaves is below the start and everything in later leaves above it |
| RangeScan.Iterator.SkipEmpty | internal/kvstore/btree.go:426-436 | moving past exhausted leaves changes nothing of what is ahead |
| RangeScan.Iterator.Next | internal/kvstore/btree.go:410-416 | steps over exactly one pair |
| RangeScan.Scan | internal/kvstore/btree.go:366-386 | what is ahead of a new iterator is exactly the part of the tree in the range |
| RangeScan.ScanAll | internal/kvstore/btree.go:366-459 | a scan lists exactly the pairs of the map with start <= key < end, once each, in strictly ascending order |
| Bucket.FullKeyInjective | internal/kvstore/bucket.go:87-149 | two bucket paths and keys have the same stored key if and only if they are the same |
| Bucket.FindPrefixEnd | internal/kvstore/bucket.go:151-160 | the edited copy is the least string above all strings with the prefix, absent when there is none |
| Bucket.PrefixIsRange | internal/kvstore/bucket.go:151-160 | a key has the prefix if and only if it lies between the prefix and its end |
| Bucket.ScanBucket | internal/kvstore/bucket.go:66-141 | lists the stored pairs with the prefix in the local range, prefix taken off, in order |
| Bucket.ScanWhole | internal/kvstore/bucket.go:66-160 | a scan from the least valid key lists exactly the keys of a bucket without nested buckets, in order |
| Repair.CollectReachablePages | internal/kvstore/repair.go:40-68 | the depth-first search ends on any links, cycles included, and has expanded exactly what it found; it fails only on a broken page that can be reached |
| Repair.ReachExact | internal/kvstore/repair.go:40-68 | the pages found are exactly those a walk from the root can reach |
| Repair.RebuildFreeList | internal/kvstore/repair.go:70-89 | every unreachable page is on the new list once, reachable pages are untouched |
| Repair.Repair | internal/kvstore/repair.go:6-38 | after success every page is exactly one of meta, reachable or free, and reachable pages are byte-identical; on failure nothing has changed |
| Repair.RepairKeepsTree | internal/kvstore/repair.go:6-38 | the tree at the root is still there after a repair, so every lookup gives what it gave before |
| Wal.StepKeeps | internal/kvstore/wal.go:13-127 | every file-system call of Update, rollback and Open, every failure of one that an Update reports, the death of the process at any point, and a crash at any point keep the invariant that each directory state a crash may return to is recoverable, but for a crash that brings back a stale log and an Update started on a file that the Update before it left half changed |
| Wal.RunKeeps | internal/kvstore/db.go:106-153 | the invariant holds after every run without these two |
| Wal.CrashAtomic | internal/kvstore/db.go:23-51 | in every such run, deaths and crashes during recovery and failed rollbacks included, an open database holds the flushed image after nil, the image from before after an error, and one of the two when the Update was cut off |
| Wal.RecoveryCompletes | internal/kvstore/wal.go:57-105 | after every such run, recovery never refuses its log, runs to its end, and plays back the image from before the Update |
| Wal.TornRecovers | internal/kvstore/wal.go:57-105 | a crash while fn runs may leave any bytes in the database file, and recovery then gives the image from before the Update |
| Wal.FailureLeaves | internal/kvstore/wal.go:13-55 | which calls of an Update may fail where, and what that leaves: the disk but for the scratch file, the outcome, and the process stuck exactly while a log is there or the pager is closed |
| Wal.RecoveryLeaves | internal/kvstore/wal.go:76-105 | a recovery that fails removes its scratch file unless that has become the database; in Open it can be tried again, in a rollback the process is stuck |
| StaleLog.SettledUnlessStale | internal/kvstore/wal.go:57-127 | after a crash at any reachable point recovery runs to its end, and the database then holds an image the latest Update allows if and only if the directory state brought back has no log of an earlier Update |
| StaleLog.CarefulAtomic | internal/kvstore/wal.go:107-113 | in a run in which the process never dies between the removal of a log and the directory sync, that sync never fails and no Update starts on a half-changed file, no directory state has a stale log and every open database is as the latest Update allows |
| StaleLog.UpdateCommits | internal/kvstore/db.go:106-130 | from every open database after any run an Update can write any image: its nine calls run to the end, it returns nil, the file holds the image, and no directory state has a log |
| StaleLog.DeathLeavesStale | internal/kvstore/wal.go:13-55 | after such a death, opening the database and starting an Update leaves a stale log for every changed image |
| StaleLog.StaleLogReturns | internal/kvstore/wal.go:107-127 | on any database an Update, such a death, a second Update and a crash lose the first Update |
| LostLog.LogOverwritten | internal/kvstore/wal.go:13-55 | after an Update that returned an error and left its log, the next one puts a copy of the file as it is in the place of that log, and the invariant holds again with that image for the one from before |
| LostLog.UndoneIffPrudent | internal/kvstore/db.go:106-153 | let the next Update fail and its rollback succeed: the first, which returned an error, is undone if and only if it had changed nothing |
| LostLog.FailedUpdateStays | internal/kvstore/db.go:106-153 | on any database two Updates that both return an error, without a death or a crash, leave any image the first has written |
| Db.Open | internal/kvstore/db.go:23-51 | a file that is a database opens with exactly its tree, pairs and leaf chain; a file that is not whole pages is refused; an empty file opens with an empty tree |
| Db.FileOf | internal/kvstore/pager.go:121-135 | the file under a tree object is a database with the tree of the object |
| Db.FileUnique | internal/kvstore/db.go:23-51 | the bytes of a file determine the tree, so the pairs and the leaf chain |
| Db.OpenAgain | internal/kvstore/db.go:140-152 | after a rollback a file that is a database opens with exactly its tree |
| Transactions.Run | internal/kvstore/db.go:164-183 | one operation makes of the tree what the map operation makes of the pairs; each error has its cause in the tree and the operation, a refusal for lack of room in both directions, and leaves whole pages, mapped unless there was no page |
| Transactions.RunAll | internal/kvstore/db.go:164-183 | operations in turn give the trees and pairs of the map operations in turn, up to the first that fails |
| Transactions.TracePairs | internal/kvstore/db.go:164-183 | along any run of operations, one that empties the database included, the pairs are those of the map operations |
| Transactions.TraceOrder | internal/kvstore/btree.go:305-354 | the leaf chain stays in order along any run none of whose deletes empties a leaf other than the first |
| Transactions.DB.Rollback | internal/kvstore/db.go:132-153 | given the logged file of a database, the rollback succeeds exactly when the pager was closed already or has its mapping, and then the tree is that of the file |
| Transactions.DB.UpdateOpen | internal/kvstore/db.go:106-130 | a transaction applies all its operations, or leaves exactly the tree from before; but it panics exactly when it puts into a root without entries, and its rollback fails exactly when it found no page, which leaves the pager closed |
| Transactions.DB.UpdateClosed | internal/kvstore/db.go:106-153 | after that a transaction without operations fails to flush, and any other returns an error and opens the file as it was left |
| Transactions.DB.Update | internal/kvstore/db.go:106-153 | both cases together, for any transaction on a database that is open or whose rollback has failed |
| FullDisk.Overfill | internal/kvstore/db.go:106-153 | on an empty database in a file of two pages that cannot grow, forty pairs of 101 bytes find no page, and the rollback fails |
| FullDisk.HalfTransaction | internal/kvstore/db.go:106-153 | then any other transaction returns an error, and the open database holds some of the forty pairs but not all |
| Transactions.DB.Scan | internal/kvstore/db.go:186-191 | on a database whose chain is in order, the pairs of the range in order |
| History.Play | internal/kvstore/db.go:106-153 | after any transactions up to one that panics or cannot be rolled back, the pairs are those of the committed ones, in order |
| History.ScanPlayed | internal/kvstore/db.go:186-191 | after any transactions none of which empties a leaf other than the first, a scan lists exactly the pairs the committed ones leave |
| Sessions.NextKeeps | internal/kvstore/db.go:106-153 | every call of Update and Open, every reported failure of one, a death and a crash keep the relation between the file, the log and the transactions started so far, but for the two exceptions of Wal.StepKeeps |
| Sessions.SessionHolds | internal/kvstore/db.go:23-153 | in every run of transactions, failed rollbacks, deaths, crashes and recoveries in which no crash brings back a stale log and no transaction starts on a half-changed file: whenever the database is open its file is a database, with the effects of the transactions that returned nil, in order, each that was cut off as a whole or not at all, and none that returned an error |
| Sessions.TransactionCommits | internal/kvstore/db.go:106-130 | on every open database after any run, a transaction whose operations turn the file into an image can return nil with that image in the file; the pairs allowed from then on are exactly what the operations make of those allowed before |
| Sessions.FailedTransactionStays | internal/kvstore/db.go:106-153 | without the last condition, on any database: two transactions return an error, nothing dies or crashes, and the open database is any other one, whose pairs the two do not allow |
| Sessions.CanHoldOne | internal/kvstore/db.go:106-130 | when no transaction was cut off these effects are one map |
| Sessions.Reopen | internal/kvstore/db.go:23-51 | opening the file after any such run gives a tree object with those pairs |
| FastCdc.MaskBits | internal/chunk/fastcdc.go:140-149 | the width b of the mask satisfies 2^(b-1) < avg <= 2^b |
| FastCdc.NewFastCdc | internal/chunk/fastcdc.go:33-49 | accepted exactly for 0 < min <= avg <= max |
| FastCdc.Boundary | internal/chunk/fastcdc.go:122-138 | the rolling loop finds the cut of the reference function |
| FastCdc.CutIs | internal/chunk/fastcdc.go:122-138 | the cut is the first place past minSize and half the average where the fingerprint is zero under the mask, or the limit, and nothing else |
| FastCdc.FingerprintSum | internal/chunk/fastcdc.go:130-133 | the fingerprint of n bytes is the sum of 2^(n-1-i) times the table value of byte i, modulo 2^64 |
| FastCdc.CutAfterIff | internal/chunk/fastcdc.go:131-136 | a cut is asked for exactly from half the average on, where the low bits of that sum are zero |
| Streaming.ForEach | internal/chunk/fastcdc.go:72-120 | for any pieces the reader hands out, the loop emits the chunks of the reference stream, all of them unless the callback refuses one, and fails exactly when a read does |
| Streaming.StreamPieces | internal/chunk/fastcdc.go:72-120 | for any pieces, the chunks lie end to end and make up the input but for what is left |
| Streaming.StreamExact | internal/chunk/fastcdc.go:72-120 | for any pieces, the chunks are those of the pure function on the input, or the first of them when a read fails, if and only if every buffer is cut where all the bytes left would be cut and none are left at the end |
| Streaming.NoIdleTrue | internal/chunk/fastcdc.go:87-106 | that is so for every fragmentation in which each read gives a byte, the end or a failure |
| Streaming.Split | internal/chunk/fastcdc.go:62-69 | the list of all chunks: pieces of the input end to end, those of the pure function exactly under that condition, so always without an empty read |
| Streaming.SplitNothing | internal/chunk/fastcdc.go:103-109 | any input whose reader gives nothing on the first read is split into no chunk, without an error |
| FastCdc.ChunksPartition | internal/chunk/fastcdc.go:72-120 | chunks concatenate to the input and state contiguous offsets |
| FastCdc.ChunkSizes | internal/chunk/fastcdc.go:122-138 | no chunk is empty or above the maximum, none but the last below the minimum |
| FastCdc.Resynchronize | internal/chunk/fastcdc.go:72-120 | two streams that are equal after a cut of each produce equal chunks from there on |
| FastCdc.CutIsLocal | internal/chunk/fastcdc.go:130-136 | with arithmetic modulo 2^64, once b bytes are rolled in the cut test depends on the last b bytes only |
| Index.BloomFilter.Add | internal/chunk/index.go:118-124 | sets every probe bit of the data, loses none, and no probe leaves the words despite 64-bit wrap-around |
| Index.BloomFilter.MaybeContains | internal/chunk/index.go:127-136 | true exactly when every probe bit is set |
| Index.Index.Add | internal/chunk/index.go:38-48 | true exactly on first insertion; the entries and the filter stay in step |
| Index.Index.Contains | internal/chunk/index.go:51-60 | true exactly when the hash was added |
| Index.AddAll | internal/chunk/index.go:38-60 | over any run of additions each answer says whether its hash was new, and the index ends with all of them |
| Index.NewBloomFilter | internal/chunk/index.go:102-115 | refused exactly for a size that is not positive |
| Envelope.ParseIsDecode | internal/chunk/envelope.go:91-164 | the parser accepts exactly the encodings of readable headers, whatever follows them |
| Envelope.HeaderRoundTrip | internal/chunk/envelope.go:91-164 | a header written in front of any bytes is read back with its length |
| Envelope.ParseRoundTrip | internal/chunk/envelope.go:91-164 | what was parsed would be written back byte for byte exactly when the algorithm is a known one |
| Envelope.UnknownAlgorithm | internal/chunk/envelope.go:91-164 | a header with algorithm byte 7 is read and cannot be written |
| Envelope.SealThenOpen | internal/chunk/envelope.go:33-88 | sealing succeeds exactly for a known cipher, a non-empty key id below 2^16 bytes and a nonce of 1 to 255 bytes, and opening gives the plaintext back |
| Envelope.OpenAuthenticates | internal/chunk/envelope.go:67-88 | every byte of an opened envelope went into the cipher, the header as additional data |
| ChunkStore.KeyInjective | internal/chunk/pipeline.go:545-548 | content keys are equal exactly for equal hashes, and lie below data/ |
| ChunkStore.EncodeHolds | internal/chunk/pipeline.go:444-474 | an encoded chunk decodes to the chunk under its hash |
| Pipeline.StepKeeps | internal/chunk/pipeline.go:147-218 | every move of every worker keeps each chunk in exactly one place, one carrier per claimed hash, sound payloads, and channels closed only after their writers |
| Pipeline.RunKeeps | internal/chunk/pipeline.go:99-250 | the invariant holds in every interleaving |
| Pipeline.Drained | internal/chunk/pipeline.go:220-250 | when Feed succeeds nothing is left in any channel or worker |
| Feed.FeedDescribes | internal/chunk/pipeline.go:220-250 | a successful Feed returns one reference per chunk, with sequences 0 to n-1 in order, hash, key, offset, size, compression, cipher and key id |
| Feed.FeedCounts | internal/chunk/pipeline.go:220-250 | the statistics: as many chunks as were cut, the length of the input, one upload for each distinct chunk, the rest as duplicates, and the bytes of the objects under the hashes of the distinct chunks in the final backend |
| Feed.FeedSizes | internal/chunk/pipeline.go:477-507 | of the references with the hash of a chunk exactly one is no duplicate; its stored size is that of the object under its key in the final backend, and that of a duplicate is 0 |
| Feed.OnePutEach | internal/chunk/pipeline.go:386-414 | exactly one object is put per distinct chunk and no other |
| Feed.FeedCompletes | internal/chunk/pipeline.go:477-507 | the backend ends up with a copy of every chunk, duplicates through their first copy |
| Feed.Restore | internal/chunk/pipeline.go:253-324 | the loop succeeds exactly when every reference, in sequence order, can be fetched, opened and checked, and writes their bytes; a failed one has written the chunks before the failing one, and that one too when only its check failed |
| Feed.RestorePrefix | internal/chunk/pipeline.go:253-324 | against any backend, a restore that fails has written a prefix of what was backed up and at most one wrong chunk after it |
| Feed.RestoreTrue | internal/chunk/pipeline.go:295-319 | against any backend at all, a restore that succeeds writes the bytes that were backed up |
| Feed.RestoredSize | internal/chunk/pipeline.go:312-319 | against any backend at all, a restore that succeeds writes as many bytes as the references say |
| Feed.BackupRestores | internal/chunk/pipeline.go:99-324 | for every input, worker count, channel capacity and interleaving: a successful Feed that was not cancelled, followed by Restore writes the input, one object per distinct chunk |
| Progress.StepShrinks | internal/chunk/pipeline.go:147-218 | every move of every goroutine brings the end nearer |
| Progress.NotStuck | internal/chunk/pipeline.go:340-348 | with channels of any positive capacity, in every reachable state before the end some goroutine can move, without a failure when chunks can be sealed |
| Progress.FeedEnds | internal/chunk/pipeline.go:99-250 | no run has more than 11 moves for each chunk, 3 for each worker and 5 more, and none is stuck before its end |
| Progress.FeedCanSucceed | internal/chunk/pipeline.go:99-250 | from every reachable state without an error or cancellation the run can still end in success |
| Progress.CanBreak | internal/chunk/pipeline.go:147-218 | a read may fail as long as the input is open, and a worker on any item it holds |
| Progress.FailedIff | internal/chunk/pipeline.go:127-145 | in every run an error is recorded exactly when a read or a worker has failed |
| Progress.RunBounded | internal/chunk/pipeline.go:99-125 | in no run does a channel hold more items than its capacity |
| Cancellation.SuccessIsComplete | internal/chunk/pipeline.go:509-543 | a Feed without an error has described every chunk if and only if no worker gave one up, which happens only when the caller cancelled |
| Cancellation.SilentLoss | internal/chunk/pipeline.go:509-543 | a cancelled Feed on any single chunk may return no error and no reference |
| GarbageCollect.MarkManifest | internal/repository/gc.go:43-53 | adds the non-empty keys of all chunks of a manifest and counts the new ones |
| GarbageCollect.Mark | internal/repository/gc.go:35-57 | the marked keys are exactly those some stored manifest refers to; with a backend that does not fail it succeeds exactly when every manifest can be read back |
| GarbageCollect.Sweep | internal/repository/gc.go:59-77 | only unmarked keys below data/ go, everything else is unchanged; on success no unmarked one is left |
| GarbageCollect.Collect | internal/repository/gc.go:27-78 | nothing is deleted in a dry run or when a manifest cannot be read back, and with a backend that does not fail it ends without an error exactly when all can; orphans reported are exactly the unreferenced chunks, manifests, referenced and scanned chunks are counted, and the bytes deleted and left are those there were |
| Repository.ManifestRoundTrip | internal/manifest/manifest.go:89-125 | references written to a manifest and read back are the same but for the duplicate flag |
| Repository.BackupKeeps | internal/repository/commit.go:41-84 | a backup that stops anywhere leaves every stored manifest with all its chunks |
| Repository.GcKeeps | internal/repository/gc.go:27-78 | a collection, finished or cut short, leaves every stored manifest with all its chunks |
| Repository.GcExact | internal/repository/gc.go:59-77 | in every life of a repository, after each collection that ran to its end the keys below data/ are exactly those some manifest refers to |
| Repository.GcFinishes | internal/repository/commit.go:86-119 | in every life of a repository a collection can run to its end if and only if no stored manifest has more than 64 MiB, and while one has, none deletes anything |
| Repository.EveryManifestRestores | internal/repository/commit.go:41-119 | through any sequence of complete or failed backups, commits, deleted manifests and collections every stored manifest of at most 64 MiB restores to its original bytes, and no larger one restores |
| Oversize.LongManifest | internal/repository/commit.go:74-83 | whatever the manifest format, some successful backup of one chunk many times over has a manifest above any given size |
| Oversize.CommittedAndLost | internal/repository/commit.go:18-110 | so there is a backup that succeeds and is committed, does not restore, and keeps every collection from running to its end |
| Calendar.MonthUnique | internal/schedule/cron.go:262-268 | a day lies in exactly one month of the calendar |
| Calendar.MonthStartIs | internal/schedule/cron.go:262-268 | every month starts on the day the Gregorian rule gives in closed form |
| Calendar.Cycle | internal/schedule/cron.go:262-268 | the calendar repeats every 400 years, 146097 days, and with it the days of the week |
| Calendar.KnownDays | internal/schedule/cron.go:234-247 | 1 January 1970 was a Thursday and 1 January 2000 a Saturday |
| Cron.NextBit | internal/schedule/cron.go:253-260 | the least set bit in the range, or none |
| Cron.MatchesDate | internal/schedule/cron.go:110-146 | what an expression matches, for every date and time of day by year, month, day, hour, minute and second |
| Cron.DayMatchesIff | internal/schedule/cron.go:234-247 | an unrestricted day field allows every day; of two restricted ones either is enough |
| Cron.FiveYears | internal/schedule/cron.go:103-110 | the deadline is the same clock time on the same date five years on, 1 March for 29 February |
| Cron.Jump | internal/schedule/cron.go:110-146 | each jump at month, day, hour, minute or second level skips no matching second and moves forward |
| Cron.Next | internal/schedule/cron.go:103-149 | the least matching second strictly after the instant and not past the five-year deadline; fails exactly when there is none or a field is empty |
| Window.ParseWindow | internal/schedule/window.go:20-45 | accepted exactly for clock times from 00:00 to 23:59 whose end is after the start, with those bounds |
| Window.InstantIs | internal/schedule/window.go:48-75 | the instant of a day is the start of the window, or behind it by the hash of the day modulo the width |
| Window.Next | internal/schedule/window.go:48-64 | one instant a day inside the window, the first strictly after the given one; with a parsed window the search never runs out |
| Scheduler.NextOf | internal/schedule/scheduler.go:110-129 | the first occurrence of the schedule after an instant |
| Scheduler.TickOne | internal/schedule/scheduler.go:62-108 | the loop computes the reference tick: runs, new cursor, last run, jobs by policy, and the same failures |
| Scheduler.TickExact | internal/schedule/scheduler.go:89-107 | from a cursor on an occurrence the runs are exactly the occurrences up to now, each once and in order, and the cursor moves to the next one |
| Scheduler.TickJobs | internal/schedule/scheduler.go:131-153 | by policy: a job for every occurrence, one that is due now, or one that is due at the latest occurrence up to now; none exactly when no occurrence is due; the last run is the latest occurrence |
| Scheduler.TickSucceeds | internal/schedule/scheduler.go:62-108 | a paused schedule stays as it is; another catches up exactly when it takes no more than the allowed number of runs, 1000 by default, and the search finds an occurrence after each |
| Scheduler.TickSeeds | internal/schedule/scheduler.go:70-83 | without a cursor a schedule starts at its first occurrence after the last run, else the creation, else now |
| Scheduler.Confluent | internal/schedule/scheduler.go:62-108 | ticking at an earlier time first gives the same final state and the same runs |
| Scheduler.QueueConfluent | internal/schedule/scheduler.go:131-153 | under the queue policy the due times of the two ticks are those of the one |
| Scheduler.RunConfluent | internal/schedule/scheduler.go:62-108 | any ascending sequence of ticks loses and repeats no run |
| Scheduler.Tick | internal/schedule/scheduler.go:45-60 | all schedules together, an error in one changing none |
| Scheduler.AllConfluent | internal/schedule/scheduler.go:45-60 | confluence for all schedules together: the same states, and each schedule the same runs |
| Retention.ApplyCount | internal/retention/retention.go:90-110 | the in-place loop performs the count scan |
| Retention.ApplyTime | internal/retention/retention.go:112-127 | the in-place loop performs the time scan |
| Retention.ApplySize | internal/retention/retention.go:129-148 | the in-place loop performs the size scan with 64-bit sums |
| Retention.ApplyGfs | internal/retention/retention.go:150-205 | the in-place loop performs the four period scans |
| Retention.Apply | internal/retention/retention.go:42-63 | a refused or unknown rule fails and changes nothing; any other performs its scan |
| Retention.ProtectKeptAncestors | internal/retention/retention.go:207-231 | the items kept are the least set that has those kept before and is closed under parents; new ones get the reason "chain" |
| Retention.Resolve | internal/retention/retention.go:25-66 | fails exactly when a rule is refused; otherwise the closure of the ruled items, newest first |
| Retention.UnselectedForgotten | internal/retention/retention.go:90-205 | a backup a rule does not select leaves no trace in its scan |
| RuleLaws.CountSelects | internal/retention/retention.go:99-108 | the count rule selects the n newest backups of its kind |
| RuleLaws.TimeSelects | internal/retention/retention.go:112-127 | the time rule selects exactly the backups whose end, or start when they have no end, is no longer ago than the duration |
| RuleLaws.TimeKept | internal/retention/retention.go:112-127 | after its scan an item is kept exactly if it was before or is not too old |
| RuleLaws.TimePrefix | internal/retention/retention.go:112-127 | over a list that is newest first the time rule selects a prefix |
| RuleLaws.TimeGrows | internal/retention/retention.go:112-127 | a longer duration selects at least as much, and so does an earlier time |
| RuleLaws.RefusedIff | internal/retention/retention.go:42-63 | a rule is refused exactly if it is of no known kind or has a negative number |
| RuleLaws.RuledKeeps | internal/retention/retention.go:42-63 | the rules together keep exactly what was kept and what some rule selects on its own |
| RuleLaws.PlanKeeps | internal/retention/retention.go:25-66 | a plan keeps every protected backup and every backup some rule selects |
| RuleLaws.PlanReasons | internal/retention/retention.go:233-241 | no item of a plan has a reason twice |
| RuleLaws.SizeWithinLimit | internal/retention/retention.go:137-146 | for all sizes and limits that are 64-bit numbers and not negative, what the size rule keeps is within its limit if and only if no unguarded backup overflows the sum with those selected before it |
| RuleLaws.SizeSelects | internal/retention/retention.go:137-146 | under the same condition, and only then, it selects greedily each backup that still fits |
| RuleLaws.LimitExceeded | internal/retention/retention.go:137-146 | sizes 5 and 2^63 - 1 are both kept under a limit of 10 |
| RuleLaws.GfsSelects | internal/retention/retention.go:168-203 | the newest backup of each of the latest days, ISO weeks, months and years |
| RuleLaws.PeriodKeys | internal/retention/retention.go:168-203 | the keys of the periods tell apart days, weeks from Monday to Sunday, calendar months and calendar years |
| RetentionLaws.SortOnly | internal/retention/retention.go:33-35 | the sort is stable: dropping backups before or after sorting is the same |
| RetentionLaws.SortDescending | internal/retention/retention.go:33-35 | the plan is newest first |
| RetentionLaws.SortPermutes | internal/retention/retention.go:33-35 | the plan lists every backup as often as it was given |
| RetentionLaws.PlanAges | internal/retention/retention.go:33-35 | the items of a plan age from first to last |
| RuleLaws.ScanAt | internal/retention/retention.go:90-205 | in a scan each item gets the reasons of its place, once each, and nothing else changes |
| RetentionLaws.PlansSurvive | internal/retention/retention.go:207-231 | for every kept backup the restore planner answers over the retained backups exactly what it answers over all of them |
| RetentionLaws.Idempotent | internal/retention/retention.go:25-66 | resolving the same policy over the retained backups keeps all of them |
| RestorePlan.FollowParents | internal/restore/plan.go:61-77 | the loop with its seen set computes the walk to the root |
| RestorePlan.WalkIsChain | internal/restore/plan.go:61-77 | the walk succeeds exactly when there is a chain without repetition to a root, and gives it |
| RestorePlan.ReverseBackups | internal/restore/plan.go:105-109 | the in-place swap loop reverses |
| RestorePlan.BuildPlan | internal/restore/plan.go:42-103 | the plan or the error of the reference answer |
| RestorePlan.PlanIsChain | internal/restore/plan.go:42-103 | a plan is a root-first chain of distinct backups linked by parents that ends at the one asked for |
| RestorePlan.PlanRestores | internal/restore/plan.go:78-103 | each step has the manifest, target, storage, kind and times of the backup with its id; the plan has the target asked for, or that of the backup, and warns exactly of a time after the end of the backup |
| RestorePlan.PlannedIff | internal/restore/plan.go:42-103 | there is a plan exactly when the parents lead to a root without repeating |
| RestorePlan.WhyNot | internal/restore/plan.go:42-77 | every error has its cause: the backup a cycle is reported at leads back to itself, and the parent reported missing is that of a backup the walk comes to |
| RestorePlan.TableLast | internal/restore/plan.go:42-60 | the last backup with an id is the one that is found under it |
| RestorePlan.TableFrom | internal/restore/plan.go:42-60 | and what is found under an id is the last backup with it |

## Left out

- BTree.BTree.Delete: after an error the contract says that the pages are whole and mapped, and nothing of the tree, since the surrounding transaction is rolled back.
- BTree.BTree.Put: after an error on a tree with a root branch, or for a node that does not fit, the contract says that the pages are whole and whether they are mapped, and nothing of the tree.
- Transactions.DB.Update: fn is a sequence of puts and deletes that stops at the first error; an fn that goes on after an error is not modelled; reads inside a transaction, and read-only transactions, are lookups and scans of the tree. What a caller finds who recovers from the panic is not stated, nor what a database does that was opened on a file torn by a failed rollback. Of the failures inside a rollback only the lost mapping is modelled here; the others are steps of Wal.
- Pager.Pager.StoreNode: nodes that are not sorted, or on a page that is free; the code would write them, and no caller does.
- Repair.Repair: starts from an open pager, as the code does, so a free list that cannot be rebuilt is refused before repair; running the rollback log first is the subject of Wal.
- Wal.CrashAtomic: first-time creation of the database; a pager that cannot be opened after a rollback that ran to its end; and a directory that cannot be opened for its sync, which syncParentDir (internal/kvstore/wal.go:121-124) reports as success, so that Update may return nil with the removal of its log not on disk.
- Sessions.SessionHolds: runs in which a crash brings back a stale log, which StaleLog treats, or a transaction starts on a half-changed file, which LostLog treats; what a transaction flushes is taken to be the pages its operations leave, as Transactions.DB.Update proves of them.
- FastCdc.MaskBits: averages above 2^62, for which the doubling overflows and maskForAverage does not end.
- Pipeline.StepKeeps: a worker looks at the context before it hashes or encodes; a cancellation may come right after, so the steps are allowed in every state.
- Feed.BackupRestores: a deduplication index shared between runs, custom stage functions, and entity tags.
- Feed.Restore: a decompressor that writes part of a chunk before it fails.
- Repository.EveryManifestRestores: backups that overlap with collections; manifests with several objects, and restores over several manifests.
- GarbageCollect.Collect: listing tokens are the sets of keys passed, and listed sizes those of the stored objects; that backends list in key order is not modelled, and neither is the partial report after an error.
- Window.ParseWindow: the text of the expression and its zone; hours and minutes come as numbers.
- Scheduler.TickOne: parsing of cron and window expressions, time zones and daylight saving; schedules come parsed.
- Cron.Next: locations other than UTC.
- Retention.Resolve: reading rule parameters from untyped maps; a rule comes with its numbers, and day, week, month and year keys stand for their formatted strings.
- Mutexes and memory mapping: operations are atomic, and the mapped file is a sequence of pages with a flag for the mapping.
- Job claims, the orchestrator and HTTP handlers: exclusion rests on an assumption the code does not enforce.
- The audit log: its hash depends on re-encoding untyped metadata.
- Encryption, hashing, compression, JSON and signatures themselves.
- Storage backends, database drivers, the agent client, configuration, secrets, tokens, notifications, metrics, the command line and the web interface: plumbing that would only add easy members.
