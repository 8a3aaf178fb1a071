# fsend, verified

fsend sends files from one computer to another: it pairs sender and receiver
over the local network or through a pairing server, falls back to a relay, and
streams the files with resume, restart and skip. This project models the parts
of it whose correctness no single function shows, and proves what they promise.

`dafny verify dfyconfig.toml` checks everything.

## What is modelled

**The data plane.** A stream is what it says: `Wire` forgets its cutting into
segments and chunks and keeps one atom per byte and per marker. The sender's
packer (`Pack`, `Send`) is proved to say exactly a script of the files, the
receiver (`RecvFile`, `Receive`) to act on the atoms alone, and `Delivery` joins
the two: what is committed is what the source held. `Transfer` runs the
imperative pieces end to end and follows a disk through any number of
interrupted attempts. `FileHash` is the block hash both sides keep, `Frames` the
compressed frames, `Commit` the batched, durable commit. `Tar` is the same
stream received into a pipe: it says exactly which streams are accepted, and
`TarDelivery` that the honest ones are and what the archive then holds.

**Names.** `Walk` expands the command line over a finite filesystem with
arbitrary symlinks and is compared with a definition of reachability that knows
no walk, and its errors with what is wrong in the filesystem. `Classify`,
`KeepBoth` and `RenameAside` plan where each entry lands, by what stands in its
slot, and apply the user's answer, in place; `Landing` hands those plans to the
data phase and follows one receive from the listing to the committed bytes,
told by the folder, the listing and the answer alone.

**The pairing server.** `Sessions` is the session table as a value, one function
per handler, with nothing counted, compacted or swept. `SessionRuns` proves what
every run of it keeps, `SessionReplies` when it says yes, what ends a session and
that a parked sender hears of its receiver, and `SessionCap` exactly when the cap
per address does not hold. `Server` is the server itself, with two maps over shared
records, counters, compacted buckets and swept tombstones, each handler proved
to do exactly its step; `Counts` and `RateLimit` are why the short cuts are
exact.

**The relay.** `Registration` is the cookie handshake over a hostile network, its
client's whole conversation, and both sides together,
`Framing` its wire format, `Ceilings` the byte caps under concurrent readers,
one step per atomic access, `Budget` the daily ceiling, and `Midnight` exactly
which accesses to it can break the limit.

**The rest.** `Race` is the sender's pairing round: two goroutines, their
channels, and the coordinator; `RaceEnds` says why it ends. `EditDistance` is the typo guesser and `Pake` the
self-delimiting encoding of the password-authenticated key exchange.

## Assumptions

BLAKE3 is ideal: a digest is as good as its bytes. zstd gives back what it was
given. The relay's MAC is ideal: a cookie is the value it authenticates, and
only the relay makes one. Session IDs and relay tokens are fresh, tokens
nonempty, rate keys nonempty, and server handlers see time that does not run
backwards. A filesystem compares names componentwise and never takes two
different numbers for the same name (`KeepBoth.NumbersApart`, which folding
comparisons meet). Byte counters and times are unbounded integers, except in
the cookie's epoch, where the unsigned wrap is written out.

## Where the code and its promise part

* **The daily byte limit at midnight.** A reader takes the time of a datagram
  before it charges the budget (`internal/relay/server.go:471`, `:506`), and
  several readers run at once. Every access to the budget rolls its window: a
  charge, the look an allocation takes (`internal/relay/server.go:331`) and a
  metrics scrape (`internal/relay/server.go:111`). A reader held up over midnight
  charges yesterday after one of these moved the window on; `roll` starts
  yesterday's window again from zero, and the day forwards a second limit.
  `Midnight.ScrapedAtMidnight` is such a run: a limit of 100, two datagrams of
  100 bytes, a scrape between their charges, 200 bytes forwarded for one day.
  `Midnight.DailyLimitHoldsExactly` says when the limit holds: for the accesses
  of any run under a clock that never turns back, every such run that makes them
  keeps the limit exactly when no charge comes back to a day it was charged on
  before and that any access, of whatever kind, has left.
* **Keep both over a symlink.** When a folder of the listing meets a symlink in
  its slot, keep-both saves the folder under a new name but leaves everything
  inside it where it was, where it is out of reach and not received.
  `RenameAside.ContentsLeftBehindSymlink` is such a listing, and
  `RenameAside.LinkInTheWayIsPlanned` says that it is one the planner takes; in
  `RenameAside.ApplyRename` a renamed folder's contents follow it exactly when
  the slot did not hold a symlink.
* **The cap after a restart.** A poll charges a restored session to its address
  without looking at the cap (`internal/server/server.go:817`).
  `SessionCap.CapPassedAfterRestart` is a run that passes a cap of one. A handler
  passes the cap exactly when it is an admitted poll, by the sender of a restored
  session no address is charged for yet, while the caller's address is at its
  cap (`SessionCap.CapPassedExactly`, and for whole runs
  `SessionCap.CapHoldsExactly`); in every run an address is charged at most the
  cap and one more for each live restored session it polls
  (`SessionCap.CapPlusRestored`).

## Model

| member | source | states |
|---|---|---|
| `FileHash.BlockHashesAt` | internal/transfer/filehash.go:91-139 | digest number i is the digest of the i-th 1 MiB slice of the content, whatever calls delivered it |
| `FileHash.BlockHashesCount` | internal/transfer/filehash.go:91-153 | there are just enough digests to cover the content, with only the last block short |
| `FileHash.BlockHashesAppend` | internal/transfer/filehash.go:83-89 | a block-aligned prefix can be hashed apart from what follows it, which is what seeding relies on |
| `FileHash.RootsAgree` | internal/transfer/filehash.go:58-69 | two roots are equal exactly when the contents are |
| `FileHash.FileHasher.Seed` | internal/transfer/filehash.go:83-89 | a seeded hasher stands where it would after hashing the whole prefix |
| `FileHash.FileHasher.Write` | internal/transfer/filehash.go:91-107 | any split into writes adds exactly its bytes to the content hashed |
| `FileHash.FileHasher.AddBlock` | internal/transfer/filehash.go:111-139 | a handed-over block adds its bytes; only the last may be short |
| `FileHash.FileHasher.Blocks` | internal/transfer/filehash.go:142-153 | the digests returned are those of the consecutive slices of the content |
| `FileHash.FileHasher.Sum` | internal/transfer/filehash.go:156 | the root depends on the content alone |
| `FileHash.HashBlocks` | internal/transfer/filehash.go:170-187 | hashing the first n bytes succeeds exactly when the file still yields them, and gives their digests |
| `Pack.ChunkPacker.MarkRestart` | internal/transfer/pack.go:122-127 | what the chunks say so far does not change; the next bytes of that file will carry the flag |
| `Pack.ChunkPacker.AppendBytes` | internal/transfer/pack.go:132-163 | the chunks say exactly the old stream plus the pending restart and these bytes, and every chunk stays within the byte and segment limits with segment lengths summing to its payload |
| `Pack.ChunkPacker.AppendRound` | internal/transfer/pack.go:132-163 | one round takes at least a byte, no more than fits, and says exactly those bytes |
| `Pack.ChunkPacker.EndFile` | internal/transfer/pack.go:168-176 | adds the end marker with its root, on the open segment when there is one and on an empty segment otherwise |
| `Pack.ChunkPacker.SkipFile` | internal/transfer/pack.go:180-183 | adds a skip and forgets a pending restart of that file |
| `Pack.ChunkPacker.AddMarker` | internal/transfer/pack.go:185-197 | a marker that no longer fits the chunk opens a new one and is said exactly once |
| `Pack.ChunkPacker.Flush` | internal/transfer/pack.go:200-208 | cutting a chunk changes nothing of what is said |
| `Frames.DecodePayload` | internal/transfer/pack.go:213-236 | a payload decodes to its declared size or is refused |
| `Frames.WriteLoop` | internal/transfer/pack.go:47-83 | every frame decodes to the payload of its chunk, in order, and is compressed exactly when there are bytes, compression is not resting, and a tenth more than the compressed size is still smaller |
| `Frames.RestIsEarned` | internal/transfer/pack.go:61-71 | compression rests only after a chunk that did not pay, and for at most 64 chunks with bytes |
| `Frames.RestDoubles` | internal/transfer/pack.go:64-71 | each miss in a row doubles the rest, up to 64, and a chunk that pays ends it |
| `Send.ReadUpTo` | internal/transfer/send.go:379-406 | the block-by-block read of a source stops at the declared size, or after whole blocks where the next one cannot be read |
| `Send.SendOneFile` | internal/transfer/send.go:333-418 | the packer says exactly the file's script: resume or restart by the prefix root, the bytes, and an end, or a skip where reading stopped |
| `Send.SendBody` | internal/transfer/send.go:379-417 | from an offset the packer says the bytes that can be read and then the end with the whole file's root, or a skip |
| `Send.SendFiles` | internal/transfer/send.go:124-191 | the chunks, whatever their cutting, say the script of every accepted file in listing order |
| `RecvFiles.RecvFile.Fresh` | internal/transfer/recv.go:661-710 | a new partial starts with nothing received |
| `RecvFiles.RecvFile.Resume` | internal/transfer/recv.go:661-710 | a reopened partial is cut to the agreed offset and its hasher seeded to match |
| `RecvFiles.RecvFile.DiskIsPrefix` | internal/transfer/recv.go:725-791 | what is on disk is a prefix of what was received |
| `RecvFiles.RecvFile.Write` | internal/transfer/recv.go:725-758 | bytes past the declared size are refused; otherwise the zero extension of the disk is the old bytes plus the new |
| `RecvFiles.RecvFile.WriteSparse` | internal/transfer/recv.go:762-791 | exactly the positions outside aligned all-zero blocks of this write are written, and the holes read as what was received |
| `RecvFiles.RecvFile.FlushRun` | internal/transfer/recv.go:765-772 | a pending run is written at its place and nothing else |
| `RecvFiles.RecvFile.Finalize` | internal/transfer/recv.go:793-820 | succeeds exactly at the declared size under the declared root, and then the disk holds exactly the bytes received |
| `Receive.RunConcat` | internal/transfer/recv.go:507-623 | a stream is judged the same however it is cut |
| `Receive.RunData` | internal/transfer/recv.go:590-602 | a run of bytes opens the file if need be and appends them, unless it would pass the declared size |
| `Receive.Receiver.Open` | internal/transfer/recv.go:661-710 | a restart is accepted only for a file that was to resume |
| `Receive.Receiver.TakeData` | internal/transfer/recv.go:590-614 | one data segment opens or continues its file |
| `Receive.Receiver.WriteAndEnd` | internal/transfer/recv.go:600-614 | the bytes are appended and an end mark finalizes the file |
| `Receive.Receiver.EndFile` | internal/transfer/recv.go:603-614 | a verified file is committed with its bytes and one fewer file is expected |
| `Receive.Receiver.HandleSegment` | internal/transfer/recv.go:568-615 | one segment acts as its restart flag, bytes and end mark one after another, or is refused |
| `Receive.Receiver.HandleChunk` | internal/transfer/recv.go:566-617 | one chunk acts as its segments in order |
| `Receive.AwaitedExactly` | internal/transfer/recv.go:1097-1145 | data is awaited exactly of the files with bytes that are not behind a symlink and are new or to resume, or differ or conflict with the user's consent |
| `Receive.Receiver.ReceiveData` | internal/transfer/recv.go:507-623 | the loop stops at the first chunk boundary where nothing is expected, at the first refused chunk, or when the stream closes, in the state the stream's atoms lead to; however it ends, only what the user let land was committed |
| `Delivery.ResumeCandidateValid` | internal/transfer/classify.go:366-382 | every resume offset a receiver offers is block-aligned, positive, within the partial and below the size |
| `Delivery.ResumePassesGuard` | internal/transfer/send.go:353-377 | every offset the receiver emits passes the sender's guard |
| `Delivery.BodyAgrees` | internal/transfer/recv.go:661-710 | sender and receiver agree on resume against restart: the same bytes precede what is sent |
| `Delivery.RunFile` | internal/transfer/send.go:333-418 | one file's script takes the receiver from waiting for it to having committed or skipped it |
| `Delivery.RunFiles` | internal/transfer/recv.go:507-623 | after the first k files the receiver holds exactly those settled |
| `Delivery.HonestDelivery` | internal/transfer/recv.go:507-623 | end to end: nothing is refused, each readable awaited file is committed with exactly the source's bytes, exactly the unreadable ones are skipped, and nothing more is expected |
| `Delivery.ReadableExactly` | internal/transfer/send.go:333-418 | the reads a file's transfer makes succeed exactly when it opens, is long enough, and, to be resumed, its prefix opens and can be sought past when it is the partial's |
| `Delivery.DeliveredLandsExactly` | internal/transfer/recv.go:1097-1145 | what an honest stream leaves, told by the plans and sources alone: committed is exactly what the user let land and could be read, and only the unreadable of it is skipped |
| `Delivery.ExpectsUntilTheEnd` | internal/transfer/recv.go:539 | at every earlier point of the stream something is still expected |
| `Delivery.OnlyConsentedData` | internal/transfer/recv.go:513-523 | after any stream at all, honest or not, bytes are committed only for files that were asked for, once each, at their declared size, under the root the stream declared for exactly those bytes |
| `Transfer.CollectDecisions` | internal/transfer/send.go:201-251 | the sender's decision map is the receiver's decisions |
| `Transfer.ReadChunks` | internal/transfer/recv.go:469-503 | the chunks read are the chunks written |
| `Transfer.Transfer` | internal/transfer/send.go:146-171 | the imperative sender, packer, writer, reader and receiver composed: no error, committed is exactly every file the user let land whose source could be read, with the source's bytes, exactly the unreadable are skipped, and the last chunk is the one that ends the wait |
| `Transfer.NeverRestarted` | internal/transfer/send.go:298-327 | against a true partial the sender resumes |
| `Transfer.RunFilesCut` | internal/transfer/recv.go:528-537 | a stream cut anywhere leaves committed files equal to their sources and the open partial a prefix of its source |
| `Transfer.AttemptKeepsDiskTrue` | internal/transfer/recv.go:528-582 | one attempt, cut anywhere and losing any tail of the open file, keeps every partial a true prefix; only a file skipped while open loses its partial |
| `Transfer.NoRestartSaid` | internal/transfer/send.go:353-377 | on a true disk no restart is ever sent |
| `Transfer.ResumeIsTransparent` | internal/transfer/classify.go:366-382 | over any number of interrupted attempts on an unchanged source, what is saved is the source, what is kept is a prefix of it, and resume is never refused |
| `Transfer.ResumeSends` | internal/transfer/send.go:353-417 | a readable source is sent from its partial's last whole block on, and nothing before |
| `Transfer.OneBlockAgain` | internal/transfer/classify.go:366-382 | a file cut off in mid-stream whose bytes reached the disk costs the next attempt what is missing and at most one block of what was received |
| `Transfer.SavedIsNotSent` | internal/transfer/recv.go:1109-1117 | a saved file is not asked for again |
| `Commit.Committer.Add` | internal/transfer/recv.go:846-853 | a verified file joins the batch, which is flushed exactly when it reaches the file or byte limit, with the flush's result as the answer; what waits stays below 256 files and 64 MiB |
| `Commit.Committer.Flush` | internal/transfer/recv.go:855-895 | one flush does to the outside exactly one batch's events and leaves nothing pending |
| `Commit.Committer.SyncAndClose` | internal/transfer/recv.go:936-957 | every file is synced and closed, and the batch counts as durable only if all syncs and the drive's succeeded |
| `Commit.Committer.PlaceAll` | internal/transfer/recv.go:899-933 | renames in order, one sync of the folders touched, then the reports |
| `Commit.FailedBatchPlacesNone` | internal/transfer/recv.go:862-871 | a batch with a failed sync places and reports none of its files |
| `Commit.DoneIsDurable` | internal/transfer/recv.go:872-890 | a report comes only after its whole batch is on disk, the file is renamed and its folder's sync was attempted |
| `Commit.BatchCounts` | internal/transfer/recv.go:855-895 | in one batch a file is reported at most once and each handle is closed exactly once |
| `Commit.ReportedOnceClosedOnce` | internal/transfer/recv.go:841-895 | over every run a file is reported at most once and every handle that reached a flush is closed exactly once |
| `Commit.ReportedMeansDurable` | internal/transfer/recv.go:841-895 | over every run a report is preceded by the sync of its batch, its own rename and its folder's sync |
| `Commit.DurableReports` | internal/transfer/recv.go:872-890 | a file is reported as saved exactly when its batch reached the disk and it was renamed into place |
| `Commit.SucceedsExactly` | internal/transfer/recv.go:862-895 | a flush succeeds exactly when its batch reached the disk and every file is reported, or was left out because something was in its way |
| `Commit.DurableExactly` | internal/transfer/recv.go:862-871 | a batch reached the disk exactly when every file's sync and the drive's succeeded |
| `Classify.Run` | internal/transfer/classify.go:122-178 | succeeds exactly on listings without symlinks and without a repeated path, naming the cause otherwise, and then refuses exactly the reserved names and the later of two names the filesystem takes for one |
| `Classify.AncestorBlockedExactly` | internal/transfer/classify.go:262-286 | an entry cannot be reached exactly when, of the folders it needs, the nearest one that exists is something else |
| `Classify.VerdictExactly` | internal/transfer/classify.go:296-358 | each verdict exactly by what stands in the slot: identical a folder, or a plain file of the size and time, to be verified one of the size under --checksum, differing any other plain file, a conflict anything else or no folder above, to resume an empty slot with a usable partial, new an empty slot without |
| `Classify.ReachExactly` | internal/transfer/classify.go:228-260 | an entry is out of reach exactly behind a symlink, and a file meets a folder with contents exactly when one stands in its slot |
| `Classify.PlansDistinct` | internal/transfer/classify.go:153-169 | what is not refused lands under distinct names |
| `KeepBoth.CandidatesApart` | internal/transfer/classify.go:565-567 | different numbers give different candidate names to the filesystem |
| `KeepBoth.Pigeonhole` | internal/transfer/classify.go:565-575 | if the first n candidates are all used, n names are used |
| `KeepBoth.SearchEnds` | internal/transfer/classify.go:558-577 | the search ends, by counting used names |
| `KeepBoth.FreeName` | internal/transfer/classify.go:558-577 | returns the first numbered name beside the path unused on disk and in this transfer, and takes it |
| `KeepBoth.DecimalInjective` | internal/transfer/classify.go:566 | different numbers print differently |
| `KeepBoth.DecimalReads` | internal/transfer/classify.go:566 | the number is printed in decimal without leading zeros |
| `KeepBoth.NameKeepsExtension` | internal/transfer/classify.go:558-567 | the number goes before the extension, which starts at the last dot unless that dot starts the name |
| `KeepBoth.FoldingKeepsNumbersApart` | internal/transfer/classify.go:153 | a name comparison that folds characters one by one and leaves digits alone keeps numbered names apart |
| `RenameAside.RunIsPlanned` | internal/transfer/classify.go:122-178 | the plans of a listing with parents first are what renaming may start from |
| `RenameAside.ApplyRename` | internal/transfer/classify.go:503-531 | the in-place pass keeps both: distinct places for everything not refused; renamed are exactly the clashes within reach and what lies under a renamed folder, each absent on disk and resumed exactly from a usable partial; no clash left within reach; folders taking their contents along unless a symlink held the slot |
| `RenameAside.ResolveVerify` | internal/transfer/recv.go:356-418 | the content checks settle each undecided plan, in place, by whether the contents agree |
| `RenameAside.VerifiedIsPlanned` | internal/transfer/recv.go:205-217 | plans with their content checks settled are still what renaming may start from |
| `RenameAside.ApplyPolicy` | internal/transfer/classify.go:493-533 | keep changes nothing, replace refuses exactly the files in the way of a folder with contents, rename keeps both |
| `RenameAside.PlanListing` | internal/transfer/recv.go:205-240 | planning, content checks and the user's answer composed: it succeeds exactly on listings without symlinks and repeated paths |
| `RenameAside.LandApart` | internal/transfer/classify.go:503-531 | two plans that are not refused land under different names |
| `RenameAside.RenamedIsAbsent` | internal/transfer/classify.go:535-541 | every renamed plan's new place is empty on disk |
| `RenameAside.UnderFolder` | internal/transfer/classify.go:515-522 | an entry below a moved folder goes under its new name, or stays because it is out of reach |
| `RenameAside.MovedContentsFollow` | internal/transfer/classify.go:515-522 | the contents of a folder moved inside a moved folder follow it |
| `RenameAside.LinkInTheWayIsPlanned` | internal/transfer/classify.go:122-178 | the listing and folder of the next row meet what planning and renaming ask for |
| `RenameAside.ContentsLeftBehindSymlink` | internal/transfer/classify.go:510-525 | whatever planning and renaming make of that listing, a folder whose slot holds a symlink is renamed and the file in it is left where it was, out of reach |
| `Landing.DataPlansValid` | internal/transfer/classify.go:180-212 | the plans any answer leaves are ones the data phase accepts, with the same verdicts |
| `Landing.AskedForExactly` | internal/transfer/recv.go:1097-1145 | told by the folder, the listing and the answer alone: a file is asked for exactly when it has bytes and a place of its own not behind a symlink, no plain file of its size and time, or under --checksum of its size and contents, stands there already, and the answer lets it land |
| `Landing.LandsInEmptySlot` | internal/transfer/classify.go:333-358 | under keep and keep-both a file lands only where nothing was |
| `Landing.ReceiveListing` | internal/transfer/recv.go:190-300 | a whole receive under any answer, from the listing to the committed bytes: exactly the files that would land and can be read, with their bytes, no two in one place, and under keep and keep-both where nothing was |
| `Walk.ReachesFolder` | internal/transfer/walk.go:127-219 | what is found at or below a folder is the folder and what its children reach |
| `Walk.ReachesLeaf` | internal/transfer/walk.go:127-219 | below an excluded path nothing is found, and at a file only the file |
| `Walk.ListedExactly` | internal/transfer/walk.go:153-207 | a listed entry carries its inode's kind, size and time, and special files are not listed |
| `Walk.TroubleAtFolder` | internal/transfer/walk.go:159-219 | what cannot be sent at or below a folder is the folder itself or something its children lead to |
| `Walk.Walker.AddEntry` | internal/transfer/walk.go:127-219 | ends on every finite tree although only link-reached folders are checked for a cycle; appends exactly the entries found at or below the path; succeeds only when nothing there is troubled, and each error is justified: a loop needs a link back to a folder on the way, a repeated name a path listed before |
| `Walk.Walker.AddChildren` | internal/transfer/walk.go:190-202 | appends exactly what the children reach |
| `Walk.AddContents` | internal/transfer/walk.go:65-82 | a folder's contents are listed at the top level, or refused for a reason that is there |
| `Walk.Walk` | internal/transfer/walk.go:39-118 | succeeds exactly when there are arguments, everything below them can be sent and no two of them give one name, each error naming a cause that is there; the listing is numbered from zero, names no path twice, lists folders before their contents and nothing at or below an excluded path, and holds exactly the entries found |
| `Walk.WalkedListingIsPlanned` | internal/transfer/walk.go:39-118 | what a walk lists any receiver can plan and keep both on |
| `RateLimit.RateBucket.Compact` | internal/server/server.go:217-225 | in-place compaction keeps exactly the stamps after the cutoff, in order |
| `RateLimit.RateBucket.Allow` | internal/server/server.go:217-231 | accepts exactly while fewer than the limit remain after compaction |
| `RateLimit.ExactSlidingWindow` | internal/server/server.go:567-582 | for calls in time order the compacted bucket gives the verdicts of one that forgets nothing, wherever the janitor prunes |
| `RateLimit.IdealAccepts` | internal/server/server.go:217-231 | each accepted call had fewer than the limit in its own last window |
| `RateLimit.NoWindowOverLimit` | internal/server/server.go:217-231 | no window holds more accepted calls than the limit |
| `RateLimit.LimitHolds` | internal/server/server.go:217-231 | in every run of calls and prunes, no window ever holds more accepted calls than the limit |
| `RateLimit.RecentExactly` | internal/server/server.go:217-225 | exactly the stamps after the cutoff are kept, each as often as it was there |
| `Counts.ChargeMatches` | internal/server/server.go:691 | one more charge keeps every counter equal to its number of charged roles, with no zero entry |
| `Counts.ReleaseMatches` | internal/server/server.go:1035-1043 | releasing both roles of a dropped session keeps the counters exact |
| `SessionRuns.CreateKeeps` | internal/server/server.go:637-692 | creating a session keeps the table's invariant and the cap |
| `SessionRuns.JoinKeeps` | internal/server/server.go:716-772 | joining keeps the invariant and the cap |
| `SessionRuns.WaitKeeps` | internal/server/server.go:788-836 | a poll keeps the invariant, and the cap on all roles but restored senders |
| `SessionRuns.DeleteKeeps` | internal/server/server.go:954-980 | deleting keeps the invariant |
| `SessionRuns.EvictKeeps` | internal/server/server.go:533-561 | dropping any stale sessions keeps the invariant |
| `SessionRuns.EvictOneMore` | internal/server/server.go:536-561 | the sweep may go through the sessions one at a time in any order |
| `SessionRuns.LoadKeeps` | internal/server/state.go:95-121 | restoring a snapshot keeps the invariant |
| `SessionRuns.StepKeeps` | internal/server/server.go:533-980 | no handler, in whatever order, breaks the table |
| `SessionRuns.After` | internal/server/server.go:533-980 | the table after every run of handlers satisfies the invariant: both maps agree, joins are on record, slots with a live tombstone are free, the cap holds of every role checked against it |
| `SessionRuns.StepRecordsJoins` | internal/server/server.go:750-772 | a step records a join exactly when it answers one, for a session that had none |
| `SessionRuns.JoinedAtMostOnce` | internal/server/server.go:739-743 | in every run each session is joined at most once |
| `SessionRuns.RecordedByAJoin` | internal/server/server.go:764-772 | every recorded join was made by a join step with that address and those credentials |
| `SessionRuns.AnswerIsRecorded` | internal/server/server.go:802-870 | a poll is answered only for a session in the table, and one at the slot needs its sender's token |
| `SessionRuns.AnsweredByOwnReceiver` | internal/server/server.go:788-871 | in every run, through eviction and reuse of the slot, a sender's wait is answered with exactly what the one join of its own session recorded |
| `SessionCap.CapPlusRestored` | internal/server/server.go:644-649 | in every run, restarts included, an address is charged at most the cap plus the live restored sessions it polls |
| `SessionCap.CapHoldsInEveryRun` | internal/server/server.go:644-649 | without a restored snapshot no address is ever charged for more roles than the cap |
| `SessionCap.WaitCharges` | internal/server/server.go:815-820 | a poll charges its caller exactly when it gives a restored session its address, at the cap or not |
| `SessionCap.CapPassedExactly` | internal/server/server.go:788-836 | from a table within the cap, a handler passes it exactly when it is an admitted poll, by the sender of a restored session charged to nobody yet, while the caller's address is at its cap |
| `SessionCap.CapHoldsExactly` | internal/server/server.go:533-980 | a run stays within the cap throughout exactly when none of its steps is such a poll |
| `SessionCap.CapPassedAfterRestart` | internal/server/server.go:815-820 | one such run: a cap of one, two restored sessions, two polls from one address, which is then charged for both |
| `SessionRuns.TombStands` | internal/server/server.go:987-990 | no step removes or changes a tombstone that still answers |
| `SessionRuns.UsedCodeIsRefused` | internal/server/server.go:972-990 | for ten minutes after a session is deleted as used, its code is neither joined nor handed out again |
| `SessionRuns.PairingCompletes` | internal/server/server.go:677-836 | nothing in the way, a code created, joined and waited on tells the receiver the sender's address and credentials and the sender the receiver's |
| `SessionRuns.HeartbeatKeepsSession` | internal/server/server.go:536-551 | after a poll a session survives the sweep exactly while its sender is not silent too long and its code not too old |
| `SessionRuns.PairingKeepsSession` | internal/server/server.go:552-560 | after a join a session survives the sweep exactly for the paired time |
| `SessionRuns.SnapshotRestores` | internal/server/state.go:48-123 | saving and loading restores exactly the sessions still waiting and not expired, without their addresses |
| `SessionReplies.AdmitExactly` | internal/server/server.go:999-1012 | a call is admitted exactly with room for its address and, for IPv6, for its site, and counts against both; one its site refuses counts against its address |
| `SessionReplies.RateLimitHolds` | internal/server/server.go:999-1012 | in every run, in any minute, the calls one address got past the limit are within it and those of one IPv6 site within four times it |
| `SessionReplies.CreateExactly` | internal/server/server.go:614-702 | a code is handed out exactly when it is well formed, the caller has room and is below the cap, and nothing holds or used the slot |
| `SessionReplies.JoinExactly` | internal/server/server.go:708-785 | a receiver is paired exactly when it has room and is below the cap, and the code is held, unused and not taken |
| `SessionReplies.WaitExactly` | internal/server/server.go:788-836 | a poll with room finds its session exactly by the sender's token, and is answered when that is paired and parked when not |
| `SessionReplies.WakeExactly` | internal/server/server.go:845-871 | in every run a woken poll is answered exactly when its session still holds the slot, with the join on record, and has expired otherwise |
| `SessionReplies.ParkedSenderIsTold` | internal/server/server.go:788-871 | in every run: a sender creates a code and parks, a receiver joins and is told of the sender, and the woken poll, while the session holds the slot, is answered with that receiver |
| `SessionReplies.JoinStands` | internal/server/server.go:764-772 | the join a session was paired by stands in the record ever after |
| `SessionReplies.JoinGives` | internal/server/server.go:760-772 | a joined session holds the receiver's address, credentials and token, and leaves the sender's data alone |
| `SessionReplies.EndsExactly` | internal/server/server.go:533-980 | a live session ends exactly by a delete with one of its own tokens or a sweep past its time |
| `SessionReplies.DeleteFrees` | internal/server/server.go:954-990 | a deleted session is gone with its slot; its code answers as used for ten minutes if it was used, and is free at once if not |
| `SessionReplies.CreatedStays` | internal/server/server.go:536-551 | a session just created survives the sweep exactly while its code is not too old and its sender not silent too long |
| `SessionReplies.RestoredSenderIsFound` | internal/server/server.go:813-820 | the first poll of a restored session gives it the caller's address, which the receiver that joins next is told |
| `SessionReplies.PollsDoNotMove` | internal/server/server.go:811-820 | a later poll, from wherever it comes, changes nothing but when the sender was seen |
| `SessionReplies.SweptSenderIsTold` | internal/server/server.go:533-551 | the parked sender of a session that is swept away is woken and told that it expired |
| `SessionReplies.RestoredKeepsItsAge` | internal/server/state.go:48-123 | a session saved and restored keeps its code, token, credentials and age, loses its address, and its sender counts as just seen |
| `Server.Session.CloseWaiters` | internal/server/server.go:772 | a waiter channel is never closed twice |
| `Server.Session.PairWith` | internal/server/server.go:764-772 | the record takes the receiver and wakes the sender |
| `Server.PairingServer.constructor` | internal/server/server.go:198-210 | a new server is the empty table |
| `Server.PairingServer.AllowKey` | internal/server/server.go:1013-1020 | a compacted bucket decides as the full record of accepted calls does |
| `Server.PairingServer.AllowNewSession` | internal/server/server.go:999-1011 | per address, and per site for IPv6, as the specification admits |
| `Server.PairingServer.CapIsExact` | internal/server/server.go:644 | the counter reaches the cap exactly when that many roles are charged |
| `Server.PairingServer.CreateSession` | internal/server/server.go:637-692 | does exactly the specified step: table and answer |
| `Server.PairingServer.JoinSession` | internal/server/server.go:716-784 | does exactly the specified step: table and answer |
| `Server.PairingServer.WaitSession` | internal/server/server.go:788-836 | does exactly the specified step: answers a paired session, parks a waiting one, charges a restored one without looking at the cap |
| `Server.PairingServer.WakeWait` | internal/server/server.go:845-870 | a woken poll answers only if the slot still holds its own session |
| `Server.PairingServer.DeleteSession` | internal/server/server.go:954-980 | does exactly the specified step, with a tombstone for a used code |
| `Server.PairingServer.SweepOne` | internal/server/server.go:536-561 | one session of the sweep: dropped, released and its waiters woken exactly when the specification says |
| `Server.PairingServer.SweepTombs` | internal/server/server.go:562-566 | removing old tombstones changes no answer |
| `Server.PairingServer.PruneBuckets` | internal/server/server.go:567-582 | pruning buckets changes no verdict |
| `Server.PairingServer.Evict` | internal/server/server.go:533-583 | the sweep over the map, in any order, drops exactly the stale sessions |
| `Server.PairingServer.SaveState` | internal/server/state.go:48-69 | the snapshot lists every waiting session once |
| `Server.PairingServer.LoadState` | internal/server/state.go:93-123 | does exactly the specified restore and counts what it added |
| `Budget.DayBudget.RollTo` | internal/relay/budget.go:23-28 | the window restarts exactly when the day differs |
| `Budget.DayBudget.Charge` | internal/relay/budget.go:34-43 | the bytes are counted and the charge fails exactly when the day's total passes the limit |
| `Budget.DayBudget.Exhausted` | internal/relay/budget.go:49-57 | spent exactly when the day's count has reached the limit |
| `Budget.DayBudget.UsedToday` | internal/relay/budget.go:60-65 | a metrics scrape reads the day's count, and moves the window to its own day as a charge does |
| `Budget.WindowIsDayTotal` | internal/relay/budget.go:23-43 | until a charged day is left by any access, the window counts exactly what was charged that day, which bounds what passed |
| `Budget.DayWithinLimit` | internal/relay/budget.go:34-65 | no day passes more than the limit while no charge comes back to a day that some access, charge, allocation or scrape, has left |
| `Budget.DayNeverOverLimit` | internal/relay/budget.go:34-65 | with accesses in time order no day lets more through than the limit |
| `Budget.PassesExactlyWithinLimit` | internal/relay/budget.go:30-43 | a charge is let through exactly while its day's charges, itself and the dropped ones included, are within the limit |
| `Budget.ReturningChargeOverspends` | internal/relay/budget.go:23-28 | a charge stamped with a day already left opens a new window for it, and that day lets two limits through |
| `Budget.LimitHoldsIffChargesGrouped` | internal/relay/budget.go:23-65 | for given accesses the daily limit holds, whatever is charged and whatever it is, exactly when no charge comes back to a day once any access has left it |
| `Ceilings.TotalsKept` | internal/relay/server.go:495-502 | every step keeps each session counter equal to the bytes added to it |
| `Ceilings.SumsKept` | internal/relay/server.go:495-521 | what one step does to any sum over datagrams |
| `Ceilings.PeakCoversKept` | internal/relay/server.go:515-520 | every step, a lost compare-and-swap included, keeps the peak at or above the total of each datagram past it |
| `Ceilings.PeakReachedKept` | internal/relay/server.go:515-520 | every step keeps the peak the total of some counted datagram |
| `Ceilings.BudgetKeptOn` | internal/relay/server.go:504-509 | every step keeps the bytes paid for a day equal to what the budget let through that day |
| `Ceilings.AttendedKept` | internal/relay/server.go:440-522 | a datagram still under way stays in some reader's hands |
| `Ceilings.ReasonsKept` | internal/relay/server.go:497-508 | every step keeps each tombstone's ceiling one that a datagram of that token was dropped over |
| `Ceilings.RunKeeps` | internal/relay/server.go:440-522 | every interleaving of any number of readers, evictions, sweeps and scrapes keeps the invariant |
| `Ceilings.SessionCapHolds` | internal/relay/server.go:495-502 | in every interleaving no session forwards more than its cap |
| `Ceilings.DailyLimitHolds` | internal/relay/server.go:504-509 | in every interleaving of readers, allocations, evictions and metrics scrapes in which no charge comes back to a day that any access to the budget has left, no day forwards more than the daily limit |
| `Ceilings.AllocatesExactly` | internal/relay/server.go:325-352 | while no charge has come back to a day that was left, a session is let in exactly when its token is new and the bytes charged that day are below the daily limit |
| `Midnight.Serves` | internal/relay/server.go:495-522 | a datagram served alone is charged once, and then sent, or dropped and its token evicted |
| `Midnight.ChargesFollowAllocation` | internal/relay/server.go:325-345 | in every run an allocation's look at the budget comes before the first charge |
| `Midnight.ChargesFollowInTime` | internal/relay/server.go:467-471 | under a clock that never turns back no datagram carries a time before the accesses up to the first allocation |
| `Midnight.Plays` | internal/relay/server.go:417-522 | any accesses in which an allocation comes before every charge, in time too, are those of a run |
| `Midnight.ScriptRises` | internal/relay/server.go:471 | and in that run the clock never turns back: every look and eviction reads a time no earlier than any read before |
| `Midnight.ReturningChargeForwardsTwice` | internal/relay/server.go:471-509 | for accesses in which a charge comes back to a day that was left, some run under a rising clock makes them and forwards two limits on that day |
| `Midnight.DailyLimitHoldsExactly` | internal/relay/server.go:471-509 | for the accesses of any run under a rising clock: every such run that makes them keeps the daily limit exactly when no charge comes back to a day the budget was moved away from |
| `Midnight.ScrapedAtMidnight` | internal/relay/server.go:111 | one such run, step by step, under a rising clock: two readers take the time before midnight, one charges the whole limit, a scrape after midnight moves the day on, the other charges, and twice the limit is forwarded |
| `Ceilings.NeverLiveAndEvicted` | internal/relay/server.go:703-756 | a token is never both live and tombstoned |
| `Ceilings.EvictedForGood` | internal/relay/server.go:703-712 | an evicted token is never live again |
| `Ceilings.SweepsExactly` | internal/relay/server.go:730-756 | a sweep evicts exactly the idle sessions and forgets exactly the answers whose time is up |
| `Ceilings.ReaderGoesOn` | internal/relay/server.go:495-522 | nothing hangs: whatever a reader holds, one of its own steps takes it further |
| `Ceilings.CappedOnlyOverCap` | internal/relay/server.go:495-502 | a datagram is refused by its session's cap only when the session's bytes are over it |
| `Ceilings.EvictionStartsAnswer` | internal/relay/server.go:703-710 | an eviction over a ceiling leaves a tombstone for its time that names that ceiling |
| `Ceilings.EvictionIsAnswered` | internal/relay/server.go:703-756 | through every interleaving the evicted token answers with a byte ceiling, never as idle, until that time is up |
| `Ceilings.AnswerIsTrue` | internal/relay/server.go:304-319 | a token that answers with a ceiling has a datagram that was dropped over it; with the session's cap, its bytes are over the cap |
| `Ceilings.PeakIsLargestForwarded` | internal/relay/server.go:515-520 | whenever no datagram is under way the peak is the largest running total of a forwarded one |
| `Ceilings.CounterIsForwarded` | internal/relay/server.go:511 | whenever no datagram is under way the global counter is the bytes forwarded |
| `Ceilings.CounterIsSumOverTokens` | internal/relay/server.go:511 | at every moment the global counter is the sum over all sessions of the bytes counted for them |
| `Registration.CookieLifetime` | internal/relay/server.go:586-617 | a cookie is accepted for one full lifetime and never after two |
| `Registration.Allocation.Register` | internal/relay/server.go:227-244 | in place: the peer's own slot, else the first free one, else refused |
| `Registration.FilingKeepsIds` | internal/relay/server.go:227-244 | filing keeps at most two peers with different ids, never changes a slot's id, and refuses exactly when both slots belong to others |
| `Registration.AlwaysTwoPeers` | internal/relay/server.go:548-575 | in every run an allocation holds at most two peers with different ids |
| `Registration.SlotIdsNeverChange` | internal/relay/server.go:227-244 | in every run a slot keeps its id as long as its allocation lives |
| `Registration.MintedBy` | internal/relay/server.go:578-606 | every cookie in circulation was sent in a challenge to the one address it names |
| `Registration.RecordedOnlyAfterEcho` | internal/relay/server.go:548-575 | whatever is spoofed, lost, repeated or late, a UDP address on file was sent a cookie for that session and echoed it from there in time |
| `Registration.AlwaysConfirmed` | internal/relay/server.go:570-574 | every confirmation ever sent names an id that is on file as long as the session lives |
| `Registration.RegisterWith` | internal/relay/conn.go:90-134 | the client's whole conversation: a message goes out at the start, after each challenge and after each timeout, and at no other read; it is the HELLO until a challenge came and the echo of the latest cookie from then on; each way of ending is the one its last read calls for, and with no write error it succeeds exactly when a confirmation is read before anything that makes it give up |
| `Registration.ChallengeIsEchoed` | internal/relay/conn.go:127-129 | a challenge that is followed by another read is answered before it with the echo of its cookie |
| `Registration.TimeoutRepeats` | internal/relay/conn.go:110-121 | after a timeout the last message is repeated |
| `Registration.OthersAreSilent` | internal/relay/conn.go:122-133 | nothing else makes it send |
| `Registration.OnlyEchoes` | internal/relay/conn.go:90-134 | every message is the HELLO or the echo of a cookie it was challenged with, and the first is the HELLO |
| `Registration.DoneMeansOnFile` | internal/relay/conn.go:130-132 | when the client's handshake returns without error the relay has its id on file |
| `Registration.HandshakeCompletes` | internal/relay/server.go:548-590 | a HELLO is challenged, and its echo within a lifetime is recorded and confirmed when a slot is open to the id |
| `Registration.Handshake` | internal/relay/conn.go:90-134 | client and relay composed, over UDP and over a WebSocket link: with nothing lost and a slot open, the inbox the relay makes of what the client sends makes the client return without error, with its address on file |
| `Registration.LinkRegistersAtOnce` | internal/relay/server.go:561 | a HELLO over a WebSocket link is recorded and confirmed at once |
| `Registration.RebindingMovesTheSlot` | internal/relay/server.go:480-490 | a registered peer's data from a new address is challenged, and the echo moves its own slot there and leaves the other peer alone |
| `Registration.SpeaksExactly` | internal/relay/server.go:548-590 | the relay sends exactly this: challenges to UDP sources within its limits, and a confirmation to a source that proved itself when a slot is open |
| `Registration.AllocationsExactly` | internal/relay/server.go:325-365 | an allocation starts with both slots free, and ends only by eviction |
| `Framing.CopyInto` | internal/relay/framing.go:115-125 | a field lands at its offset and nothing else changes |
| `Framing.FrameControl` | internal/relay/framing.go:115-125 | a control frame is its fields in order, always the same size |
| `Framing.ControlRoundTrip` | internal/relay/framing.go:115-136 | control frames and their bytes correspond one to one |
| `Framing.ControlLayout` | internal/relay/framing.go:78-90 | version, token, type, peer id and cookie sit at bytes 0, 1, 17, 18 and 26 of 42 |
| `Framing.DataLayout` | internal/relay/framing.go:45-55 | version and token come before the payload |
| `Framing.DataRoundTrip` | internal/relay/framing.go:50-69 | a datagram parses to this token and payload exactly when it is their framing |
| `Framing.NeverBoth` | internal/relay/server.go:447-459 | no datagram is both data and control |
| `Race.StepKeeps` | cmd/fsend/sendpair.go:736-829 | every step of the coordinator, the two goroutines, the drains and the transfer keeps the round's bookkeeping |
| `Race.RunKeeps` | cmd/fsend/sendpair.go:650-855 | so does every interleaving |
| `Race.EverythingSettled` | cmd/fsend/sendpair.go:1103-1151 | when the round returns, each started goroutine was received from exactly once and the others never, and every pairing was cleaned up exactly once |
| `Race.OneWinner` | cmd/fsend/sendpair.go:736-835 | the round succeeds exactly when it picked a winner, which is a pairing that was made |
| `RaceEnds.RaceEndsExactly` | cmd/fsend/sendpair.go:729-803 | every step of every race: a pairing received wins, a stop ends it, and otherwise it ends exactly when both sides were heard or are off, a fault heard is fatal, or the local side failed with the server known to be down; a fatal fault is reported as it is, else an unreachable server first, then the local fault, then the server's |
| `RaceEnds.RacesWithHope` | cmd/fsend/sendpair.go:729-803 | a round never goes on racing when nothing is left to wait for |
| `RaceEnds.GivesUpForAReason` | cmd/fsend/sendpair.go:640-655 | in every run, told by what the goroutines said: a round gives up only when stopped, when every side it tried failed, when guesses ran out or a receiver paired and vanished, or when the local side failed and the server did or was reported down |
| `RaceEnds.Remembered` | cmd/fsend/sendpair.go:741-803 | a fault received is remembered as that side's, and the server's as its being down unless it was told to stop or is fatal |
| `RaceEnds.GoroutinesAct` | cmd/fsend/sendpair.go:674-700 | a goroutine's outcome reaches its channel |
| `RaceEnds.EnabledMoves` | cmd/fsend/sendpair.go:729-855 | whatever the coordinator is able to do brings the round nearer to its end |
| `Race.NeverStuck` | cmd/fsend/sendpair.go:736-829 | no deadlock: until it returns, a goroutine still runs or the round can go on without one |
| `Race.AwaitedAreCancelled` | cmd/fsend/sendpair.go:711-716 | a goroutine still awaited after the decision has been told to stop |
| `Race.RoundEnds` | cmd/fsend/sendpair.go:736-829 | server-down notices and session re-creations aside, at most nine things happen in any round |
| `Race.CodeIsSpent` | cmd/fsend/sendpair.go:284-354 | once a winner is picked on the code, the server session still open ends consumed rather than deleted; a round without a winner, or on a resume key, never consumes it; and no round leaves a session behind but one whose relay budget is spent |
| `EditDistance.CheapestScript` | cmd/fsend/main.go:319-341 | some edit script of that cost turns one word into the other |
| `EditDistance.NoScriptCheaper` | cmd/fsend/main.go:319-341 | no edit script that does is cheaper |
| `EditDistance.DistanceIsOptimal` | cmd/fsend/main.go:316-341 | the recurrence is the least cost over all optimal-string-alignment scripts |
| `EditDistance.IsADistance` | cmd/fsend/main.go:316-341 | symmetric, zero only on equal words, at least the length difference |
| `EditDistance.FillCell` | cmd/fsend/main.go:330-337 | one cell from its neighbours |
| `EditDistance.Compute` | cmd/fsend/main.go:319-341 | the table's last cell is the least cost of any script |
| `EditDistance.Closest` | cmd/fsend/main.go:306-314 | the first of the nearest candidates within the threshold, and nothing when none is |
| `Pake.PrependLen` | internal/pake/pake.go:200-215 | the loop writes the LEB128 length and then the data |
| `Pake.LvCat` | internal/pake/pake.go:217-223 | the fields with their lengths, in order |
| `Pake.ReadsLength` | internal/pake/pake.go:200-214 | a decoder reads any length back, whatever follows it |
| `Pake.Decodes` | internal/pake/pake.go:217-223 | whatever is concatenated can be taken apart again |
| `Pake.UniquelyDecodable` | internal/pake/pake.go:217-223 | equal concatenations come from equal lists of any length |
| `Pake.TranscriptDetermines` | internal/pake/pake.go:225-227 | the transcript determines both shares and both sides' associated data |
| `Pake.GeneratorString` | internal/pake/pake.go:156-162 | the five fields with the padding clamped at zero |
| `Pake.FirstBlockFilled` | internal/pake/pake.go:156-162 | the first three fields fill at least one 128-byte block, and exactly one when the padding is not clamped |
| `Pake.GeneratorDetermines` | internal/pake/pake.go:156-162 | the generator string determines the secret, the channel and the session |
| `Pake.State.Finish` | internal/pake/pake.go:110-130 | a state finishes once, refuses a wrong share, and hashes the transcript in initiator order |
| `Pake.SidesAgreeIffSameView` | internal/pake/pake.go:121-129 | initiator and responder hash the same input exactly when they agree on session, point, shares and data |
| `Pake.InitiatorFirst` | internal/pake/pake.go:121-129 | what is hashed is the label, the session, the shared point, and then the initiator's share and data before the responder's, whoever computes |
| `Tar.TarStream.StructuralUpTo` | internal/transfer/sink.go:104-115 | headers of folders and empty files before a position, in order |
| `Tar.TarStream.BeginFile` | internal/transfer/sink.go:176-185 | a data file's member starts when its first bytes arrive |
| `Tar.TarStream.WriteData` | internal/transfer/sink.go:186-197 | bytes go to the open member, never past its declared size |
| `Tar.TarStream.EndFile` | internal/transfer/sink.go:198-207 | a file ends exactly at its declared size under its declared root |
| `Tar.TarStream.SkipFile` | internal/transfer/sink.go:164-175 | a skipped file gets no member |
| `Tar.TarRunData` | internal/transfer/sink.go:176-197 | a run of a file's bytes is accepted exactly when the file may come now and they fit its declared size |
| `Tar.SegmentRuns` | internal/transfer/sink.go:156-208 | a segment comes to exactly what its restart flag, bytes and end come to one after another |
| `Tar.TarStream.HandleSegment` | internal/transfer/sink.go:156-208 | accepted exactly when every atom it says is: refused are a restart, a file not awaited or passed, a second file or a skip in mid-file, bytes past the declared size, a wrong size or root at the end, and nothing else |
| `Tar.TarStream.HandleChunk` | internal/transfer/sink.go:152-214 | a chunk is accepted exactly when its segments are, in order |
| `Tar.TarStream.Stream` | internal/transfer/sink.go:137-222 | the whole loop: it succeeds exactly when some first part of the stream is accepted and settles every data file, and then the archive is complete |
| `Tar.StreamTar` | internal/transfer/sink.go:83-222 | succeeds exactly when some first part of the stream is accepted and settles every data file; then the archive has exactly one member per entry not skipped, in strictly increasing listing order, each with its declared bytes, which are the stream's |
| `Tar.OneMemberEach` | internal/transfer/sink.go:83-222 | exactly one member for each entry not skipped, none for the others |
| `TarDelivery.HonestStreamCompletes` | internal/transfer/sink.go:137-214 | an honest sender's stream is accepted to its end exactly when no file becomes unreadable after its first bytes |
| `TarDelivery.ItemsAreTrue` | internal/transfer/sink.go:198-207 | every file an honest stream settles holds the source's bytes, or could not be read to its end |
| `TarDelivery.HonestArchive` | internal/transfer/sink.go:83-222 | the archive of an honest stream has, in listing order, every folder, every empty file and every file read whole, with the sources' bytes |
| `TarDelivery.TransferTar` | internal/transfer/sink.go:58-222 | sender, frames and archive composed: success whenever no file becomes unreadable in mid-file, and then the archive holds what the sources held |

## Left out

- Receive.Receiver.EndFile: a committed file is one handed to the committer; in which batch, and whether the disk then takes it, is Commit, whose files are not tied to the receiver's.
- Receive.Receiver.ReceiveData: models neither cancellation nor disk errors, which end the loop early with an error, nor the goroutine that reads chunks ahead.
- Pack.ChunkPacker.AppendBytes: a failed write to the stream, which makes every later call return that error, is not modelled.
- Frames.WriteLoop: the binary layout of a chunk header is not modelled; a frame is its segments and its payload.
- FileHash.FileHasher.Write: blocks are hashed in order; the pool of buffers and the goroutines that hash in parallel are not modelled.
- RecvFiles.RecvFile.Write: the periodic sync every 64 MiB and the optional SHA-256 for a manifest are not modelled.
- Transfer.ResumeIsTransparent: a crash is modelled as losing any tail of the open file; bytes lost out of the middle are not.
- Commit.Committer.SyncAndClose: the files of a batch are synced in order, not in parallel, and every sync is tried.
- Commit.Committer.PlaceAll: the checks before a rename (a folder or symlink in the way, permissions, a cross-device move) are one outcome per file.
- Classify.Run: path sanitising, the probing of the filesystem and Unicode normalisation are outside; a name's key and the set of reserved names are parameters.
- RenameAside.ApplyPolicy: the consent prompt and its tally, and the check of free space, are not modelled.
- RenameAside.ResolveVerify: the rounds that ask the sender for roots and the parallel hashing are one answer per entry.
- Walk.Walk: permissions, exclusion patterns and reading failures in the middle of a folder are one predicate and one flag per entry.
- Server.PairingServer.AllowKey: the buckets are values in the map; the in-place compaction of one bucket is RateLimit.RateBucket.
- Server.PairingServer.WaitSession: the long poll's timeout and shutdown answer, which send the sender back to poll again, are not modelled.
- Server.PairingServer.LoadState: a snapshot is a list of entries that name no session this server lost and no slot it holds a tombstone for, as at start-up; its file format and version check are not modelled.
- SessionRuns.After: relay allocation through the session, trickled candidates, the server password and client version checks are not part of the table's runs.
- Midnight.DailyLimitHoldsExactly: a clock that turns back, as a wall clock may, is covered one way only, by Ceilings.DailyLimitHolds, which asks nothing of the clock.
- Ceilings.RunKeeps: choosing the destination peer, the counter of transfers that moved a byte and 64-bit wrap-around of the counters are not modelled.
- Registration.RegisterWith: the keepalive and the re-registration on a challenge during a transfer send the same messages and are not modelled separately.
- Registration.AlwaysTwoPeers: the limits on challenges and STUN replies are one flag per event.
- Race.RunKeeps: how each side pairs, the spinner and the notices are not modelled; a goroutine's outcome is any pairing or fault at any time, and a server session is one that stands or does not.
- Pake.State.Finish: the curve arithmetic is a parameter, and the hash of the input is not taken.
- Tar.StreamTar: errors of the sink and cancellation are not modelled; the tar format is its members.
- Real cryptography, QUIC, ICE, mDNS, STUN, WebSocket and HTTP are library code.
- Terminal output, prompts, configuration, self-update and diagnostics hold no property of this kind.
