# belphegor, modelled and proved in Dafny

belphegor shares the clipboard between computers. A node that sees a local copy announces it to its peers; a peer
that wants it requests it from the author, receives it, writes it to its own clipboard and announces it on. This
project models the parts of the program that this rests on and proves what they promise:

- **The mesh** (`Domain`, `History`, `Channel`, `Order`, `Batch`, `Node`, `Gossip`, `GossipSafety`,
  `GossipTermination`, `GossipDelivery`, `BatchWrites`, `Watcher`). `ClipboardNode`, `MessageChannel`, `FifoHistory`
  and `BatchCollector` are the program's objects, each method proved against a function on the object's value.
  `Gossip` puts many such values and everything in flight between them into one transition system: copying, delivering
  an announce, handling it, serving a request, delivering a message, writing the clipboard, a batch expiring. The
  theorems are about all its runs: every message comes from its author, what is written is what was published, message
  by message and batch by batch, the gossip dies out, a copy reaches just the direct peers of its author, each of them
  once, and a batch is written exactly when an arrival completes it.
- **Several copies at once** (`CopySeries`, `SeriesFlow`, `SeriesAsks`, `FileCopies`, `FileLoss`, `FileDelivery`,
  `FilePair`, `FileOrder`, `InlineSeries`, `InlinePair`). A series of messages by one author is followed with a ledger
  for each other node: what it asked for, was answered, and wrote. From it follows which direct peers have written a
  copy of files, which of several texts or images, and what is lost.
- **The codec** (`Machine`, `Varint`, `Wire`, `Proto`, `RoundTrip`, `VtProto`, `Mapper`, `Framing`, `MeshCodec`,
  `Samples`). `VtProto` has the generated message types as objects that fill a buffer from its end and walk an index
  through the input. `Wire` and `Proto` say what these loops compute, `RoundTrip` that the one undoes the other and
  that decoding merges. `Mapper` is the way between domain events and protobuf events through pools of objects;
  `Framing` the frames on a stream, written through pooled buffers. `MeshCodec` ties the two halves together: what the
  mesh has in flight is what the bytes on a stream decode to. `Samples` fixes what others agree on byte for byte: the
  schema, the frames, and what a reader must reject.
- **Files and text** (`Lines`, `UriList`, `Files`, `Utf8`, `WinText`, `WinImage`). URI lists and the files
  read from them, several files as one batch, text between UTF-8 and the UTF-16 of the Windows clipboard, bitmaps
  between top-down RGBA and bottom-up BGRA.
- **Storage** (`BytePool`, `SyncMap`). Buffers pooled by powers of two, and a map whose size is counted beside it.

Three modelling decisions run through the project. Machine integers are ranges of `int` with every truncation
written out, and a Go string is a byte string. A function the program calls but this project has no source for
(`protohelpers.Skip`, xxhash, `os.Lstat`, `url.PathUnescape`) is a parameter; for `Skip` the contract is that it gets
past the tag, that its answer depends on the skipped bytes only, and that the answer may lead out of the input. Base
128 varints and the timestamp message follow the Protocol Buffers encoding specification (section "Base 128
Varints"; seconds are field 1, nanos field 2). `protohelpers` is not part of this model.

Seven natural claims turn out false of the code, and the model says when they hold:

- A copy of files does not always reach the direct peers of its author. A file is lost at four places, and the whole
  batch with it. (1) The author's watcher drops the first file if it is the last thing it took already, whatever has
  come in since (`Node.FileCopiedTwiceIsDropped`, `Watcher.RepeatedCopyNeverPasses`; the messages of a copy all pass
  exactly if the first does, `Node.AllPassExactlyWhenFirstDoes`), and an empty file never becomes a message
  (`FileCopies.UpdateIsItemExactlyWhenNotEmpty`). (2) A peer's announce filter takes the announce of a file that it
  holds already for an old one, without a request or a refusal (`FileLoss.HeldFileIsLost`,
  `FilePair.FileCopiedBeforeIsLost`), and the peer does not ask for what is its last message already. (3) The author
  serves only the last `HISTORY_SIZE` files, five, so one that five more overtake before it is requested is lost
  (`FileLoss.OvertakenFileIsLost`, `FilePair.FirstOfSixFilesIsLost`). (4) A file that is gone when its request is
  served is not sent, and the request is not repeated (`Node.AnsweredExactlyWhenThere`, `FileLoss.GoneFileIsLost`).
  Take a direct peer that all files fit, that has no part of the batch, and whose last message is none of the files.
  At most five files have been written there at rest, whatever the order of events, if and only if each became a
  message, the peer's filter held none of their contents, and none was gone when its request was served
  (`FileDelivery.FilesArriveExactlyWhenNew`). If all are copied before the first is served, the same holds of any
  number, with the further condition that they are at most five (`FileDelivery.FilesArriveExactlyWhenFew`). Both
  suppose that a filter that holds a content keeps one: no more of the contents can come in behind it than there is
  room for before it is pushed out (`SeriesAsks.IsStuck`), as when only contents of the copy are newer
  (`SeriesAsks.AgedIsStuck`). Where it may be pushed out, nothing known before the copy decides: the same start leads
  to either end, by which announce comes first (`FileOrder.FilesAreLostIfFirstComesFirst`,
  `FileOrder.FilesArriveIfSecondComesFirst`). Of a single file no such supposition is needed
  (`FileDelivery.OneFileArrivesExactlyWhenNew`), and for every filter and every last message at most five files are
  written exactly if each became a message, the peer asked for each, and none was gone then
  (`FileDelivery.WrittenExactlyWhenAllAsked`). A peer too small for a file refuses it, which `BatchWrites` is about.
- The last of several copies is not always what a clipboard ends on: each peer writes it once, and each earlier one
  at most once (`InlineSeries.LastCopyReachesEveryPeer`), exactly if its request was answered
  (`InlineSeries.EachIsWrittenAsAnswered`), but an earlier one that is overtaken on its way may come last
  (`InlinePair.EarlierCopyMayComeLast`).
- A batch is not written whenever its last missing part is settled: it is written exactly if the operation that fills
  it is the arrival of a part (`BatchWrites.BatchIsWrittenExactlyWhenLastPartArrives`). If the batch is filled by a
  refusal, because the part is announced as too large, or comes too large, cut short or can not be stored, it is
  dropped, since `handleAnnounce` and `sendNack` ignore what `Add` returns (`Node.RefusedBatchIsLost`,
  `Node.CutShortBatchIsLost`).
- A frame is read back only if its body is shorter than 4 GiB, since the length is cut to 32 bits
  (`Framing.FrameRoundTrip`, `Framing.FourGigabytesAreReadAsNone`).
- Mapping an event to the wire and back loses its sender, its data and four of seven kinds of mime
  (`Mapper.SenderAndMimeAreLost`); `Mapper.NothingIsLostExactlyWhen` names the events that survive.
- A pooled slice is not always held by one caller only: putting an array back breaks that exactly if it is in the pool
  already (`BytePool.Pool.Put`).
- `SyncMap.Len` is not always the number of keys and may be negative in between
  (`SyncMap.CounterIsKeysLessPending`, `SyncMap.LenMayBeNegative`).

`SyncMap.Add` keeps the first value of a key although its caller `addPeer` is written as if it replaced it; the model
follows the code (`SyncMap.FirstValueStays`).

`dafny verify dfyconfig.toml` checks the project.

## Model

| member | source | states |
|---|---|---|
| Domain.AuthorOfMakeID | pkg/id/id.go:81-83 | the author read from an id is the node whose bits were put into it |
| History.FifoHistory.Add | internal/channel/history.go:36-53 | a new key is appended, the oldest goes when the history is full, a known key changes nothing; keys and map stay in step |
| History.FifoHistory.Get | internal/channel/history.go:55-61 | finds exactly the keys in the order list, with their values |
| History.HistoryIsRecentInserts | internal/channel/history.go:36-53 | after any run of Add the history is exactly the last `limit` successful inserts, in order, keys distinct |
| History.ReinsertedOnlyAfterLimitOthers | internal/channel/history.go:36-53 | between two inserts of one key lie at least `limit` inserts of other keys, pairwise different |
| Channel.MessageChannel.Get | internal/channel/channel.go:37-47 | the last message if it has the id, else the served file of that id, else nothing |
| Channel.MessageChannel.Send | internal/channel/channel.go:49-69 | the whole new channel, and that a message passes unless it duplicates a last message that is not zero |
| Channel.MessageChannel.Announce | internal/channel/channel.go:75-83 | the whole new channel, and that an announce passes just if its hash is not in the history |
| Channel.ChannelRefinesLog | internal/channel/channel.go:37-83 | over every run of calls the channel is a window on its log: last accepted message, last five inserts of both histories; no accepted message duplicates a non-zero predecessor |
| Channel.PassesExactlyWhenNotLast | internal/channel/channel.go:49-69 | after any run, a message passes if and only if nothing has passed, or what passed last has no id, hash or length, or differs in id and in kind or hash |
| Channel.LookupFindsLastOrRecentFile | internal/channel/channel.go:37-47 | after any run, Get finds the last message or one of the last five file messages, by exactly that id, and nothing else |
| Channel.PassesExactlyWhenNotRecent | internal/channel/channel.go:75-83 | after any run, an announce passes if and only if its hash is none of the last five that passed |
| Channel.HashPassesAgainOnlyAfterFiveOthers | internal/channel/channel.go:75-83 | a hash that passed passes again only after five other, pairwise different hashes |
| Order.SortIgnoresOrder | internal/channel/batch.go:70-70 | sorting by bytes depends on the multiset of parts only |
| Order.SortedExactlyWhenInByteOrder | internal/channel/batch.go:70-70 | a list is what sorting gives if and only if it has the same parts, and of two neighbours the first is a prefix of the second or has the smaller byte where they first differ |
| Batch.BatchCollector.Add | internal/channel/batch.go:33-61 | the new set of open batches and the join that is returned, if the batch is complete, its parts in byte order; the item count is compared in 32 bits |
| Batch.BatchCollector.Expire | internal/channel/batch.go:44-48 | the expiry callback closes its batch and no other |
| Batch.BatchCollector.Join | internal/channel/batch.go:63-71 | whatever order the map is visited in, the non-empty parts in byte order with newlines between |
| Batch.JoinedIsListInOrder | internal/channel/batch.go:63-71 | there is just one list that has each non-empty part as often as there are items with it and whose neighbours are in byte order, and the join of a batch is its lines |
| Batch.EmptyPartAddsNoBytes | internal/channel/batch.go:63-71 | a refused part fills a place in its batch and adds nothing to the join |
| Batch.BatchIsMessagesSinceOpened | internal/channel/batch.go:33-61 | in every run of adds and expiries an open batch is what its own messages since it opened make of it; other batches do not touch it |
| Batch.RunKeepsBatchesOpen | internal/channel/batch.go:33-61 | in every run an open batch of total at least 1 holds at least one and less than total items |
| Batch.ReadyExactlyWhenFilled | internal/channel/batch.go:52-60 | an add is answered with a join exactly if the ids since the batch opened number its total |
| Batch.ItemsAreLast | internal/channel/batch.go:52-54 | the item of an id is what the last message with that id brought |
| Batch.ReadyExactlyWhenAsManyIds | internal/channel/batch.go:52-60 | in every run a batch becomes ready exactly if the different ids seen since it opened number, in 32 bits, the total of its first message |
| Batch.BatchDelivery | internal/channel/batch.go:33-71 | for a batch of distinct ids: in any order of arrival, with repeats and other traffic, nothing is ready before the last missing part, and then the join of all parts is |
| Node.ClipboardNode.Watch | internal/node/node.go:306-327 | the watcher loop passes on just the copies that are messages, not repeats of the one before, and accepted by the channel |
| Watcher.WatcherHoldsLastCopy | internal/node/node.go:306-327 | in every run of a node the watcher compares with the last copy it took, whatever the channel has let through |
| Watcher.CopyPassesExactlyWhen | internal/node/node.go:314-326 | in every run a copy passes if and only if it has an id, hash and length, differs from the last copy taken in id and in kind or hash, and so from what the channel let through last, if that is a message |
| Watcher.RepeatedCopyNeverPasses | internal/node/node.go:319-322 | in every run a copy with the kind and hash of the last copy taken changes nothing at the node, whatever the channel has let through in between |
| Watcher.RepeatIsDroppedBehindPart | internal/node/node.go:314-326 | a text copied again after a part of a batch came through the channel: the channel would let it through, the watcher drops it |
| Watcher.FileIsTakenAgainExactlyWhenChanged | pkg/clipboard/eventful/files.go:42-56 | a file that is copied again is taken for a new copy if and only if its path, size or time has changed, as long as the digest tells the two apart |
| Node.BaseIsLastElement | internal/node/node.go:376-376 | the name of a file is what stands behind the last slash of its path, trailing slashes aside |
| Node.FileIsNamedByItsPath | internal/node/node.go:371-394 | the message for a file at dir/name has that name and the size that was found; any other message has no name and the number of its bytes |
| Node.ClipboardNode.HandleAnnounce | internal/node/node.go:404-439 | asks exactly for what a known peer announces, is not too large and is not the last message; a refused part of a batch is recorded |
| Node.ClipboardNode.SendNack | internal/peer/peer.go:200-205 | a part that failed is recorded without data if it belongs to a batch |
| Node.ClipboardNode.HandleMessage | internal/peer/peer.go:207-245 | what is taken in and passed on, and that a message too large, cut short or not stored is refused |
| Node.ClipboardNode.HandleRequest | internal/peer/peer.go:185-282 | answers with the message of exactly that id and its bytes, or not at all; a file message only with its file |
| Node.AnsweredExactlyWhenThere | internal/peer/peer.go:185-282 | after any run of a channel a request is answered if and only if it is for the last message or one of the last five files, and that is inline or its file could be opened; with the data of the message, or of the file |
| Gossip.GoneFileIsNotSent | internal/peer/peer.go:260-266 | in the mesh a request for a file that can not be opened is used up and nothing is sent |
| Gossip.AnnouncementsAre | internal/node/node.go:358-362 | what is announced of a message: its time, id, hash, length and batch, and its kind as it comes off the wire, to a peer that is not where it came from |
| Node.ClipboardNode.Inject | internal/node/node.go:338-363 | writes the clipboard for a message of another node, whole or as its completed batch, and announces to all peers but the author |
| Node.ClipboardNode.Broadcast | internal/node/node.go:259-292 | every peer but the author of the announce is written to |
| Node.BatchIsWrittenOnlyIfLastPartArrives | internal/node/node.go:345-356 | the last part closes its batch whether it arrives, is announced as too large, or fails on the way, with the same open batches in each case, but the batch is written only if it arrives |
| Node.CutShortBatchIsLost | internal/peer/peer.go:228-233 | a two-part batch whose second part is asked for and cut short: nothing is written and the batch is gone |
| Node.AllPassExactlyWhenFirstDoes | internal/node/node.go:306-327 | messages of different ids and contents get past the watcher and the channel all if the first does, and only then |
| Node.FileCopiedTwiceIsDropped | internal/node/node.go:314-326 | a file that was just copied is dropped when it comes first in the next copy, and the other file is let through alone |
| BatchWrites.NodeRunsCollector | internal/node/node.go:338-356 | over every run of a node its open batches are those of a collector that got the parts of the run, arrived or refused, and the expiries |
| BatchWrites.OpWritesExactly | internal/node/node.go:338-363 | after any run an operation at a node writes a batch exactly if it is the arrival of a part whose id completes the batch since it opened, and then the join of those parts |
| BatchWrites.WritesAreArrivalsThatFill | internal/node/node.go:338-363 | over every run of a node a batch is written as often as an arrival completes it |
| BatchWrites.BatchIsWrittenExactlyWhenLastPartArrives | internal/peer/peer.go:200-245 | for a batch of at least two distinct parts without expiry and the operation that brings the last missing part, over every run and order: the batch was not written before, is closed now, and has been written, once, if and only if that operation is an arrival and not a refusal |
| BatchWrites.MeshRunsNode | internal/node/node.go:329-439 | in every run of the mesh each node goes through a run of its own |
| BatchWrites.MeshWritesAreArrivalsThatFill | internal/node/node.go:329-439 | so at every node of every mesh a batch has been written as often as the arrival of a part completed it |
| BatchWrites.StepWritesBatchExactlyWhen | internal/node/node.go:338-356 | a step of the mesh writes a batch at a node if and only if it is the arrival there of a part from another node that makes its batch ready |
| Node.RefusedBatchIsLost | internal/node/node.go:414-428 | a two-part batch whose second part is refused: nothing is written and the batch is gone |
| GossipSafety.StepKeepsGood | internal/node/node.go:329-439 | every step of the mesh keeps the invariant on histories, open batches, clipboards and everything in flight |
| GossipSafety.RunKeepsGood | internal/node/node.go:329-439 | every run keeps it |
| GossipSafety.IntakeIsHeld | internal/peer/peer.go:207-245 | what a node takes in of a message on its way from its author is that author's published message, byte for byte if it is inline |
| GossipSafety.EveryReachableState | internal/node/node.go:259-439 | in every reachable state: requests go to Author(id), messages travel from Author(id) to another node, nobody is announced its own copy; each whole clipboard write is what another node published under that id, with its exact bytes if inline; each batch write is the sorted join of as many parts as one of them says, each published by another node in that batch, with its exact bytes, its stored path or empty |
| GossipSafety.ReadyIsJoin | internal/channel/batch.go:33-71 | a batch that becomes ready at a node is the join of published parts of that batch |
| GossipTermination.StepWeighs | internal/node/node.go:329-439 | a measure over unaccepted (node, hash) slots and traffic in flight falls on every traffic step and grows by at most the number of nodes on a copy |
| GossipTermination.TrafficIsBounded | internal/node/node.go:329-439 | the traffic of a run and the measure it ends with are bounded by the measure it began with and the copies that pass their node |
| GossipTermination.EchoBringsNothing | internal/node/node.go:314-326 | a copy of the content and kind that the channel let through last, as the watcher reports after a node's own write, does not pass |
| GossipTermination.GossipTerminates | internal/channel/history.go:36-53 | from a quiet mesh, k copies that pass, of at most HistorySize contents that no history holds, cause at most (d+3)·d·contents + d·k steps of traffic among d nodes |
| GossipTermination.PassedAndAskedOnce | internal/node/node.go:404-439 | in such a run each node passes a hash at most once and requests it at most once |
| GossipTermination.NewMeshGoesQuiet | internal/node/node.go:329-439 | from empty histories, with at most HistorySize contents in the run: the traffic is bounded by the copies, and every node passes and requests each hash at most once |
| GossipTermination.TrafficGoesOn | internal/node/node.go:329-368 | a mesh is at rest exactly if no traffic step can be taken |
| GossipTermination.RunKeepsFilters | internal/channel/history.go:36-53 | in every run the announce history and the served files of every node stay well formed |
| GossipDelivery.StepFollows | internal/node/node.go:329-439 | every step keeps each node at its place in the story of one copy: a peer that wants it has one token from hearing of the copy to writing it, and nobody is forgotten |
| GossipDelivery.CopyIsDeliveredOnce | internal/node/node.go:259-439 | for one inline copy made in any quiet good state: when the mesh is quiet again, whatever the interleaving and however often nodes report their own writes, each direct peer of the author that is large enough, has not let its content through and does not hold it as its last message has written it exactly once, with the author's bytes, and nobody else has |
| GossipDelivery.FreshCopyReachesEveryPeer | internal/node/node.go:259-439 | the same from any reachable state for a copy new to all and within every limit: at most (d+3)·d + d steps of traffic, and then exactly the direct peers have written it, once |
| FileCopies.AuthorAnswersExactlyWhenRecent | internal/channel/channel.go:37-69 | at every moment of a copy of several files its author answers a request for a file if and only if the file has been copied and not HistorySize more |
| CopySeries.StepTraffic | internal/node/node.go:329-439 | every step keeps all traffic about a series of copies what their author announced and sent |
| CopySeries.RestIsAStart | internal/node/node.go:329-439 | any mesh that ran before and came to rest can be the start of a series of copies |
| SeriesFlow.StepMoves | internal/node/node.go:329-439 | what is on its way to a node about a message moves one place on in a step, from announce let through to write, or is lost at a place that the step names |
| SeriesFlow.FilterLearns | internal/channel/channel.go:75-83 | with no more contents than the filter has places, letting one through pushes none of the others out |
| SeriesFlow.WrittenAsAnswered | internal/node/node.go:329-439 | at rest every node has written each of at most HistorySize messages exactly as often as it was answered, asked for it at most once, and was answered or refused each time |
| SeriesAsks.WantingPeerAsks | internal/node/node.go:404-439 | at rest a direct peer that the contents are new to and that is large enough has asked for each message just once |
| SeriesAsks.StuckStays | internal/channel/history.go:36-53 | a key that no more of the contents may come in behind than there are places in front of it is never pushed out by them |
| SeriesAsks.AgedIsStuck | internal/channel/history.go:36-53 | a content that only contents of a series are newer than is such a key, if the series has no more than HistorySize contents |
| SeriesAsks.HeldIsNeverAnswered | internal/channel/channel.go:75-83 | a node whose filter keeps hold of a content never asks for its message, and is never answered |
| SeriesAsks.StepStaysGone | internal/node/node.go:329-439 | a message that was copied and that nothing in flight is about does not come back into the traffic |
| SeriesAsks.OnlyPeersWrite | internal/node/node.go:404-412 | in every run copies are written by direct peers of their author only |
| SeriesAsks.SeriesTraffic | internal/node/node.go:329-439 | k copies new to all, at most HistorySize, cause at most (d+3)·d·k + d·k steps of traffic among d nodes |
| SeriesFlow.StepPeer | internal/node/node.go:329-439 | every step keeps the ledger of every node that is not the author: what it asked for is answered, refused or on its way, what it was answered is written or on its way, nothing is asked for twice |
| FileDelivery.WrittenExactlyWhenAllAsked | internal/node/node.go:259-439 | at most HistorySize files, any interleaving, any announce filter and last message: at rest a direct peer that all files fit has written them, once and complete, if and only if each became a message, the peer asked for each, and none was gone when its request was served; nothing otherwise |
| FileDelivery.FilesArriveExactlyWhenNew | internal/channel/channel.go:75-83 | at most HistorySize files, any interleaving: at rest a direct peer that they fit, whose last message is none of them and whose filter holds none or keeps hold of one, has written them if and only if each became a message, its filter held none of their contents, and none was gone when its request was served |
| FileDelivery.OneFileArrivesExactlyWhenNew | internal/node/node.go:404-439 | a single file, whatever filter and last message: at rest a direct peer that it fits has written it if and only if it became a message, the filter did not hold its content, it was not the last message already, and it was not gone when its request was served |
| FileLoss.UnansweredFileIsLost | internal/peer/peer.go:247-282 | of any number of files: if the request of a node for one that fits it is never answered, it never writes the batch |
| FileLoss.DroppedFileIsLost | internal/node/node.go:306-327 | if one of the files never became a message, no node ever writes the batch |
| FileLoss.HeldFileIsLost | internal/channel/channel.go:75-83 | of any number of files: a node whose filter keeps hold of the content of one that fits it never writes the batch |
| FileLoss.GoneFileIsLost | internal/peer/peer.go:260-266 | of any number of files: if a file that fits a node is gone whenever a request of the node for it is served, the node never writes the batch |
| FileLoss.OvertakenFileIsLost | internal/channel/channel.go:37-69 | a file that a node has no request served for before HistorySize more have been copied is lost, and the node never writes the batch |
| FileLoss.ManyFilesReachNobody | internal/channel/channel.go:37-69 | if more than HistorySize files are copied before the first request is served, no node that the first of them fits ever writes the batch |
| FileDelivery.FilesArriveExactlyWhenFew | internal/node/node.go:259-439 | if all files are copied before the first request is served, such a peer has at rest written them if and only if they are at most HistorySize, each became a message, its filter held none of their contents, and none was gone when its request was served; nothing otherwise |
| FileDelivery.FreshFilesReachEveryPeer | internal/node/node.go:259-439 | from any reachable state at rest, for a complete copy of k files new to all, at most HistorySize: at most (d+3)·d·k + d·k steps of traffic, and then every direct peer that they fit, whose last message is none of them and that has no part of the batch, has written them once if none was gone when its request was served, and no node that is not a direct peer has written anything |
| FilePair.FirstOfSixFilesIsLost | internal/channel/channel.go:13-13 | six files copied between two new nodes before the first is served: the other node never writes anything |
| FilePair.FileCopiedBeforeIsLost | internal/channel/channel.go:75-83 | a file that was copied before and another, between two nodes: the other node never writes either |
| FilePair.FiveFilesArrive | internal/node/node.go:259-439 | one to five files between two new nodes: at rest the other has written them, whatever the steps, if and only if none was gone when its request was served |
| FileOrder.FilesAreLostIfFirstComesFirst | internal/channel/channel.go:75-83 | a full filter that holds the first of two files as its oldest: if the announce of the first comes first, the files are never written |
| FileOrder.FilesArriveIfSecondComesFirst | internal/channel/channel.go:75-83 | from the same start: if the announce of the second comes first, it pushes the old content out, and at rest both files are written if neither was gone when its request was served |
| InlineSeries.AuthorAnswersExactlyForLast | internal/channel/channel.go:37-69 | at every moment of a series of inline copies their author answers a request for a message if and only if it is the last copied |
| InlineSeries.EachIsWrittenAsAnswered | internal/node/node.go:259-439 | of at most HistorySize inline copies at one node, at rest every other node has written just those that it was answered for, each of them once |
| InlineSeries.LastCopyReachesEveryPeer | internal/node/node.go:259-439 | each direct peer that the contents are new to and that is large enough has written the last copy once and each earlier one at most once, and no other node than a direct peer has written any |
| InlinePair.EarlierCopyMayComeLast | internal/node/node.go:329-363 | two texts copied in a new mesh of two nodes: a run to rest after which the other clipboard ends on the first |
| FileCopies.UpdateIsItemExactlyWhenNotEmpty | pkg/clipboard/eventful/files.go:20-59 | the update for a file becomes a message that can pass if and only if the file is not empty and its digest is not 0 |
| Varint.VarintRoundTrip | internal/types/proto/event_vtproto.pb.go:62-71 | a varint that is written is read back, whatever follows it |
| Varint.VarintIsShort | internal/types/proto/event_vtproto.pb.go:190-193 | no 64-bit value takes more than ten bytes |
| Varint.VarintPrefixFails | internal/types/proto/event_vtproto.pb.go:265-277 | no strict prefix of a varint is one |
| Varint.EncodeVarint | internal/types/proto/event_vtproto.pb.go:62-71 | writes the varint so that it ends at the offset, leaves every other cell alone, and returns where it starts |
| Varint.DecodeVarint | internal/types/proto/event_vtproto.pb.go:264-277 | the shift loop gives the low 64 or 32 bits of the varint, fails exactly on one that is cut off or longer than ten bytes, and stays in bounds |
| Wire.NextIgnoresRest | internal/types/proto/event_vtproto.pb.go:262-503 | a field is recognised from its own bytes, whatever follows |
| Wire.DecodeConcat | internal/types/proto/event_vtproto.pb.go:259-509 | for every message type: decoding a concatenation is decoding the second part into the result of the first |
| Wire.DecodeUnknown | internal/types/proto/event_vtproto.pb.go:488-502 | a run of unknown fields is kept whole and in order |
| Wire.UnknownGrows | internal/types/proto/event_vtproto.pb.go:488-502 | the unknown bytes a decoder collects are again a run of unknown fields |
| Proto.EventSizeIsExact | internal/types/proto/event_vtproto.pb.go:184-248 | SizeVT of an event, with every nested message, is exactly the length of its encoding |
| Proto.MessageSizeIsExact | internal/types/proto/message_vtproto.pb.go:192-222 | likewise for a message |
| Proto.AnnounceSizeIsExact | internal/types/proto/message_vtproto.pb.go:224-250 | likewise for an announce |
| Proto.HandshakeSizeIsExact | internal/types/proto/handshake_vtproto.pb.go:76-95 | likewise for a handshake and its device |
| RoundTrip.MessageOver | internal/types/proto/message_vtproto.pb.go:265-461 | decoding an encoded message into another lays it over that one: non-zero fields win, unknown bytes append |
| RoundTrip.AnnounceOver | internal/types/proto/message_vtproto.pb.go:462-626 | likewise for an announce |
| RoundTrip.DeviceOver | internal/types/proto/device_vtproto.pb.go:94-227 | likewise for a device |
| RoundTrip.HandshakeOver | internal/types/proto/handshake_vtproto.pb.go:97-234 | likewise for a handshake: a device merges into the one that is there, an absent one leaves it |
| RoundTrip.PayloadOver | internal/types/proto/event_vtproto.pb.go:324-487 | a payload of the same case merges, one of another case replaces |
| RoundTrip.EventOver | internal/types/proto/event_vtproto.pb.go:259-509 | decoding an encoded event into any event lays the one over the other |
| RoundTrip.EventRoundTrip | internal/types/proto/event_vtproto.pb.go:41-150 | unmarshalling a marshalled event is the identity for all four payloads, all integer values and strings, absent and empty device kept apart |
| RoundTrip.EventConcat | internal/types/proto/event_vtproto.pb.go:259-509 | two encoded events back to back decode to the second laid over the first |
| RoundTrip.DecodedEventParses | internal/types/proto/event_vtproto.pb.go:259-509 | whatever is decoded has unknown bytes that parse, at every level |
| RoundTrip.ReencodedEvent | internal/types/proto/event_vtproto.pb.go:259-509 | for any bytes that decode: encoding the event and decoding again gives the same event |
| VtProto.Timestamp.UnmarshalVT | internal/types/proto/event_vtproto.pb.go:317-322 | agrees with merging on every byte string: same success, same value |
| VtProto.Message.SizeVT | internal/types/proto/message_vtproto.pb.go:192-222 | the sum accumulated is the length of the encoding |
| VtProto.Message.MarshalToSizedBufferVT | internal/types/proto/message_vtproto.pb.go:39-89 | the cells before `end` hold the encoding, the others are untouched, and the size is SizeVT |
| VtProto.Message.UnmarshalVT | internal/types/proto/message_vtproto.pb.go:265-461 | on every byte string the loop ends, stays in bounds, consumes all input on success, and merges exactly as specified |
| VtProto.Announce.SizeVT | internal/types/proto/message_vtproto.pb.go:224-250 | the sum accumulated is the length of the encoding |
| VtProto.Announce.MarshalToSizedBufferVT | internal/types/proto/message_vtproto.pb.go:109-152 | the encoding before `end`, other cells untouched |
| VtProto.Announce.UnmarshalVT | internal/types/proto/message_vtproto.pb.go:462-626 | as for a message |
| VtProto.RequestMessage.MarshalToSizedBufferVT | internal/types/proto/message_vtproto.pb.go:172-190 | the encoding before `end`, other cells untouched |
| VtProto.RequestMessage.UnmarshalVT | internal/types/proto/message_vtproto.pb.go:627-696 | as for a message |
| VtProto.Device.MarshalToSizedBufferVT | internal/types/proto/device_vtproto.pb.go:39-71 | the encoding before `end`, other cells untouched |
| VtProto.Device.UnmarshalVT | internal/types/proto/device_vtproto.pb.go:94-227 | as for a message |
| VtProto.Handshake.SizeVT | internal/types/proto/handshake_vtproto.pb.go:76-95 | the sum accumulated, nested device included, is the length of the encoding |
| VtProto.Handshake.MarshalToSizedBufferVT | internal/types/proto/handshake_vtproto.pb.go:39-74 | the encoding before `end` with the device written by its own method, other cells untouched |
| VtProto.Handshake.UnmarshalVT | internal/types/proto/handshake_vtproto.pb.go:97-234 | as for a message; a device is decoded into the object that is there, or a new one |
| VtProto.Event.SizeVT | internal/types/proto/event_vtproto.pb.go:184-248 | the sum over created time, payload and unknown bytes is the length of the encoding |
| VtProto.Event.MarshalVT | internal/types/proto/event_vtproto.pb.go:23-34 | a buffer of SizeVT bytes is filled down to its first cell with the encoding |
| VtProto.Event.MarshalToSizedBufferVT | internal/types/proto/event_vtproto.pb.go:41-150 | the encoding before `end`, through the nested writers, other cells untouched |
| VtProto.Event.UnmarshalVT | internal/types/proto/event_vtproto.pb.go:259-509 | on every byte string the loop ends, stays in bounds, consumes all input on success, and merges created time and oneof exactly as specified, on objects that are its own or new |
| Mapper.TimeRoundTrip | internal/protocol/mapper.go:35-40 | seconds and nanoseconds of any point in time give that time back, before 1970 too |
| Mapper.MappedBack | internal/protocol/mapper.go:42-200 | mapping to protobuf and back changes the sender to Author(id) (none for a handshake), drops the data, normalises the mime, and keeps the rest |
| Mapper.ReceivedIsStable | internal/protocol/mapper.go:105-200 | mapping twice changes no more than mapping once |
| Mapper.NothingIsLostExactlyWhen | internal/protocol/mapper.go:169-200 | exactly which events come through unchanged |
| Mapper.SenderAndMimeAreLost | internal/protocol/mapper.go:169-200 | an announce of an audio file sent on by node 2 arrives as one of a path from its author, node 1 |
| Mapper.Pools.ReleaseEvent | internal/protocol/mapper.go:24-32 | event and timestamp go back to their pools, blank again |
| Mapper.Pools.SetCreated | internal/protocol/mapper.go:35-40 | the event gets its time on a timestamp that was pooled or is new, and nothing else changes |
| Mapper.Pools.MapToProto | internal/protocol/mapper.go:42-103 | whatever the pools have been through, the event has exactly the mapped value on objects nobody else has; an unsupported value gives none and returns the object |
| Framing.BigEndianRoundTrip | pkg/protoutil/encoder.go:38-38 | four bytes, big end first, give the length back |
| Framing.FrameRoundTrip | pkg/protoutil/encoder.go:31-40 | a frame is read back, and no more than it, if and only if its body is shorter than 4 GiB |
| Framing.FrameIsReadAs | pkg/protoutil/encoder.go:31-82 | whatever its length, a frame is read as the first bytes of its body, as many as the length cut to 32 bits says, and the rest is taken for what follows |
| Framing.FourGigabytesAreReadAsNone | pkg/protoutil/encoder.go:38-38 | a body of 4 GiB is read as an empty one |
| Framing.UnframedWasFramed | pkg/protoutil/encoder.go:53-82 | whatever is read as a frame is the frame of its body, followed by what is left |
| Framing.FramePrefixFails | pkg/protoutil/encoder.go:53-82 | no strict prefix of a frame is read |
| Framing.EventComesThrough | internal/protocol/codec.go:12-32 | a written event is decoded as its receiver should see it, and decoding stops at the end of its frame |
| Framing.EncodedPrefixFails | internal/protocol/codec.go:12-32 | no strict prefix of an encoded event decodes |
| Framing.StreamRoundTrip | internal/peer/peer.go:139-163 | any list of events, each message followed by its ContentLength bytes, written back to back is read back as the received events and exactly those bytes |
| Framing.WritableExactlyWhen | internal/peer/peer.go:139-163 | what is followed by content on a stream is a message, by as many bytes as its length says, and nothing else |
| Framing.StreamPrefixFails | internal/peer/peer.go:228-235 | such a stream cut short anywhere is not read as the whole |
| Framing.EncodeBytes | pkg/protoutil/encoder.go:31-40 | the frame of the event's encoding |
| Framing.EncodeToWriter | pkg/protoutil/encoder.go:95-118 | the same bytes, through a pooled buffer of any size and content |
| Framing.DecodeReader | pkg/protoutil/encoder.go:53-71 | takes one frame off the reader and succeeds exactly if its body decodes into a blank event |
| Framing.DecodeEvent | internal/protocol/codec.go:12-32 | decodes through a pooled event exactly as the specification does, and leaves the pools blank |
| Framing.ToDomainEvent | internal/protocol/mapper.go:105-167 | the type switch and the conversions, on the objects, are the specified mapping |
| Framing.Encode | internal/protocol/codec.go:34-46 | the encoded frame, or none for a value of another type |
| Framing.WriteEvent | internal/protocol/codec.go:72-84 | appends exactly what Encode returns to the stream, or nothing |
| MeshCodec.MeshEventsAreFramable | internal/types/proto/event_vtproto.pb.go:184-248 | announces, requests, and messages with a name of less than 2 GiB, always fit a frame |
| MeshCodec.AnswerOnTheStream | internal/peer/peer.go:251-282 | what is written for a request decodes to just the message event and the raw bytes that the mesh has in flight |
| MeshCodec.AnnouncementOnTheStream | internal/node/node.go:259-292 | what a broadcast writes decodes to just the announces that the mesh has in flight |
| MeshCodec.RequestOnTheStream | internal/peer/peer.go:247-249 | a request decodes to one for the same id |
| Samples.Varints | internal/types/proto/event_vtproto.pb.go:62-71 | 0, 300 and the largest value as they stand on the wire |
| Samples.MessageBytes | proto/message.proto:7-17 | a message on the wire, every field under its number in the schema |
| Samples.AnnounceBytes | proto/message.proto:19-26 | an announce on the wire |
| Samples.RequestBytes | proto/message.proto:28-30 | a request for a negative id on the wire |
| Samples.DeviceBytes | proto/device.proto:7-11 | a device on the wire |
| Samples.HandshakeBytes | proto/handshake.proto:8-12 | a handshake on the wire with its device |
| Samples.CreatedBytes | proto/event.proto:12-12 | the time of an event on the wire |
| Samples.EventBytes | proto/event.proto:11-20 | the four payloads of an event, and none, on the wire |
| Samples.FrameBytes | pkg/protoutil/encoder.go:31-40 | a frame is the length of its body in four bytes, big end first, and the body |
| Samples.PayloadBytes | internal/protocol/mapper.go:42-103 | which property of a message, an announce, a request and a handshake goes into which field |
| Samples.MimeBytes | internal/protocol/mapper.go:169-187 | for every kind of content what an announce of it has on the wire: nothing for text, 1 for an image, 2 for every kind of file |
| Samples.MimeOfBytes | internal/protocol/mapper.go:189-200 | which kind is read from every number on the wire: text unless it is 1 or 2 |
| Samples.Timestamps | internal/protocol/mapper.go:35-40 | seconds and nanoseconds of times after and before the epoch |
| Samples.UnknownDevice | internal/protocol/mapper.go:157-167 | a handshake without a device is read as from one called "unknown" |
| Samples.MalformedTagFails | internal/types/proto/event_vtproto.pb.go:279-291 | for every message type: a field of number 0, of the type that ends a group, or of another type than its number has, is not decoded, whatever follows |
| Samples.Characters | pkg/clipboard/windows/text.go:65-65 | characters of one to four bytes in UTF-8, of one and two units in UTF-16, and what a byte that is none becomes |
| Samples.TwoLines | internal/channel/batch.go:63-71 | the join of two parts and an empty one, byte for byte |
| Lines.SplitOfJoin | internal/channel/batch.go:71-71 | splitting joined lines gives the lines back |
| Lines.SpacesAre | pkg/rfc8089/uri_list.go:18-18 | the byte strings that count as space, 6 of one byte, 2 of two and 17 of three |
| Lines.TrimCuts | pkg/rfc8089/uri_list.go:18-18 | trimming cuts off the edges all that is white space, Unicode spaces in UTF-8 included, and nothing else |
| UriList.FormatURIList | pkg/rfc8089/uri_list.go:9-34 | the loop computes the list: lines trimmed, blank ones dropped, a scheme where there is none |
| UriList.FormattingTwice | pkg/rfc8089/uri_list.go:9-34 | formatting a formatted list changes nothing, for every byte string |
| UriList.PathsAreListed | pkg/rfc8089/uri_list.go:9-34 | trimmed paths that do not look like a URI become the lines "file://" and the path, with a return and a newline between them |
| UriList.NextLine | pkg/clipboard/eventful/files.go:84-92 | the first line without its return, and the rest |
| UriList.FileInfoFromRaw | pkg/clipboard/eventful/files.go:61-82 | the files named in the lines, in order: the front of them, of so many as the limit says if it is not all |
| UriList.InfosOfConcat | pkg/clipboard/eventful/files.go:68-79 | each line adds what it names, whatever the other lines are |
| UriList.LineAddsFile | pkg/clipboard/eventful/files.go:94-117 | a line of "file://" and a path, with or without a return, adds the file at the path, unescaped if it holds a percent sign and that does not fail, with its size and time, or nothing if there is none or it is a directory |
| UriList.OtherLineAddsNothing | pkg/clipboard/eventful/files.go:95-97 | a line that does not begin with "file://" adds nothing |
| UriList.DirectoryAddsNothing | pkg/clipboard/eventful/files.go:107-110 | a line that names a directory might as well not be in the list |
| UriList.FilesUpToLimit | pkg/clipboard/eventful/files.go:61-82 | every file that is read is found at its path with that size and time and is no directory; with a positive limit there are at most so many, the front of what no limit gives, and all of that if it is no longer |
| UriList.PathsComeThrough | pkg/clipboard/eventful/files.go:61-117 | paths of existing files that are trimmed, do not look like a URI and hold no escape, joined by newlines, formatted and read, are the same paths in the same order, as many as the limit lets through |
| UriList.OnePathComesThroughExactlyWhen | pkg/clipboard/eventful/files.go:94-117 | whatever unescaping does, short of lengthening: a single path comes through if and only if it is not empty, has no space at its edges, does not look like a URI, holds no newline, and unescaping it fails or changes nothing |
| Files.UpdatesFromFileInfo | pkg/clipboard/eventful/files.go:20-59 | one update a file, hashed by its own fingerprint, all with the batch id of the whole list and its length |
| Files.FingerprintTellsApart | pkg/clipboard/eventful/files.go:43-44 | two files are hashed by the same bytes if and only if path, size and time are the same |
| Files.HashesTellFilesApart | pkg/clipboard/eventful/files.go:42-56 | two updates have the same hash if and only if they are for the same file in the same state, unless the digest takes one byte string for the other |
| Files.FingerprintsTellApart | pkg/clipboard/eventful/files.go:27-36 | the bytes that the batch id of a list of paths is hashed from are the same if and only if no file has changed |
| Files.BatchIdsTellCopiesApart | pkg/clipboard/eventful/files.go:33-36 | two copies of the same paths have the same batch id if and only if no file has changed, unless the digests agree in all but the top bit |
| Files.MessageIsOfFile | pkg/clipboard/eventful/files.go:42-56 | the message for a file has its path, name and size, the digest of its fingerprint, and the id and number of files of its batch |
| Files.FilesArriveAsOneBatch | internal/channel/batch.go:33-71 | the messages for the files of one copy, in any order and with repeats, fill one batch, which is ready just when each has been there |
| Files.BatchIsReadAsFiles | pkg/clipboard/eventful/files.go:61-117 | a joined batch, formatted and read, is the files at its paths in sorted order |
| Utf8.DecodeOfEncode | pkg/clipboard/windows/text.go:86-87 | what a character is encoded as decodes to it, whatever follows |
| Utf8.EncodeOfDecode | pkg/clipboard/windows/text.go:65-65 | what is accepted is the encoding of its character |
| Utf8.ValidIsEncoded | pkg/clipboard/windows/text.go:84-93 | a byte string is valid UTF-8 if and only if it is the encoding of some characters |
| WinText.Runes16OfUtf16 | pkg/clipboard/windows/text.go:46-66 | decoding UTF-16 undoes encoding it, surrogate pairs included |
| WinText.Utf16OfRunes16 | pkg/clipboard/windows/text.go:54-63 | encoding what was decoded gives the units back if and only if every surrogate has its partner |
| WinText.ReadAfterWrite | pkg/clipboard/windows/text.go:34-134 | any text comes back up to its first zero byte, each rejected byte made U+FFFD |
| WinText.TextComesBackExactlyWhenValid | pkg/clipboard/windows/text.go:34-134 | a text comes back unchanged if and only if it is valid UTF-8 without a zero byte |
| WinText.WriteAfterRead | pkg/clipboard/windows/text.go:34-134 | writing what was read leaves the block as it was if and only if it held some text and well-formed UTF-16; an empty text leaves no block |
| WinText.Measure | pkg/clipboard/windows/text.go:84-94 | the sizing pass counts exactly the units and the closing zero |
| WinText.Fill | pkg/clipboard/windows/text.go:119-134 | the second pass fills every cell of that block and none beyond |
| WinText.WriteText | pkg/clipboard/windows/text.go:80-134 | an empty text leaves nothing, any other the encoded block |
| WinText.ReadText | pkg/clipboard/windows/text.go:34-68 | the text of a zero-terminated block |
| WinImage.MovedTwice | pkg/clipboard/windows/image.go:95-102 | the index maps of reading and writing stay in bounds and are inverse to each other |
| WinImage.FlippedTwice | pkg/clipboard/windows/image.go:93-104 | flipping a raster twice gives it back |
| WinImage.RasterPixel | pkg/clipboard/windows/image.go:230-238 | a pixel of the raster that is written is the pixel of the image in the row counted from the other end, as the high bytes of blue, green, red and alpha |
| WinImage.WriteImage | pkg/clipboard/windows/image.go:185-240 | behind the header the block holds the flipped raster of the image |
| WinImage.ReadImage | pkg/clipboard/windows/image.go:82-104 | the pixels are the flipped raster of the block; other depths are refused |
| WinImage.ImageComesBack | pkg/clipboard/windows/image.go:209-240 | for every width and height, each premultiplied 8-bit pixel survives writing and reading |
| BytePool.IndexIsCeilingOfLog2 | pkg/pool/byteslice/byteslice.go:75-77 | the index of a size is its binary logarithm, rounded up, and nothing else is |
| BytePool.Pool.Get | pkg/pool/byteslice/byteslice.go:45-58 | exactly `size` bytes with the store behind them, in an array that leaves the pool, and that nobody else holds while no array has been put back twice |
| BytePool.Pool.Put | pkg/pool/byteslice/byteslice.go:61-73 | an array of any capacity goes to a bucket it has the room for, too large ones are dropped; arrays stay apart if and only if this one was not pooled already |
| SyncMap.CounterIsKeysLessPending | pkg/storage/syncmap.go:18-30 | under any interleaving the counter is the number of keys less pending additions plus pending deletions, and it is that number if and only if these are equally many |
| SyncMap.LenMayBeNegative | pkg/storage/syncmap.go:62-64 | an interleaving after which Len is -1 |
| SyncMap.FirstValueStays | pkg/storage/syncmap.go:18-30 | under any interleaving a key has the first value added since it was last deleted |
| SyncMap.SyncMap.Add | pkg/storage/syncmap.go:18-23 | a new key is stored and counted, a known one changes nothing |
| SyncMap.SyncMap.Delete | pkg/storage/syncmap.go:25-30 | the key is gone and the counter right |
| SyncMap.SyncMap.Len | pkg/storage/syncmap.go:62-64 | with no operation under way, the number of keys |

## Left out

- Connections, discovery, TLS, dialling and handshake timing: the mesh has reliable, unordered links and a fixed, two-way topology. A broadcast that fails deletes its peer in the program; here it does not fail.
- Reconnecting and the limit on peers: both are check-then-act races. Nothing is claimed about the number of peers or about the peer that stays registered.
- When the watcher reports a node's own clipboard write: such a report is a copy like any other. The delivery theorems allow those that do not pass the node, which is what the report of its last message does; one that does pass would be a copy by another node.
- The three minutes of a batch: a batch may expire at any time. The timer of an older batch of the same id counts as such an expiry.
- Files that the store keeps, and their contents: the outcome of storing and of opening a file is a parameter. The theorems on series of copies are about runs in which a file that is still there when it is served has not changed, storing succeeds, and nobody else copies; where files arrive, their batch does not expire. Their contents have different hashes.
- The id generator and the hash functions: ids are any unused ids with the author in bits 12 to 21, hashes any values.
- Kinds of decoding errors: nothing in the program tells them apart, so the model says only that decoding fails. What a failed decode leaves in the message is not stated either.
- HeartbeatPayload, which no event carries, the reflective fallbacks of the encoder, and a oneof wrapper without a message, which `MapToProto` never makes.
- The codec of the timestamp message is part of a library and is modelled from the encoding specification.
- Proto.EventSizeIsExact: strings are shorter than 2^60 bytes, so that no size overflows a Go `int`; a longer one does not fit in memory.
- Write errors of a stream and the deadlines on it: a write appends all its bytes, a read ends in all bytes or an error.
- UriList.OnePathComesThroughExactlyWhen: `url.PathUnescape` is a parameter of which only is known that it never lengthens.
- WinText.ReadText: requires a zero in the block, as the program does by reading until it finds one.
- The Windows calls around the conversion loops, the older DIB format, PNG and BMP coding, images of negative height, and the bytes of the bitmap header other than the fields that are read back.
- What a garbage collection drops from a pool is never handed out again, which BytePool.Pool.Get allows for.
- Wayland, X11, macOS, console and tray, notifications, options, mime sniffing, logging: input and output, or small.
