/** A copy of files: a series of messages of one batch, and which of them its author serves. */
module FileCopies {
  import opened Wrappers
  import opened Machine
  import opened Domain
  import opened Channel
  import opened History
  import opened Batch
  import opened Node
  import opened Gossip
  import opened GossipTermination
  import opened CopySeries
  import opened SeriesFlow
  import F = Files
  import opened UriList

  /** The messages of a copy of `total` files that get past the author's own watcher. */
  datatype FileCopy = FileCopy(sr: Series, batchID: MessageID, total: Uint32) {
    /** What the files are at node `n`, and how they are written there: several as a batch, one as it is. */
    ghost function Stored(n: NodeID): map<MessageID, Bytes> {
      map id | id in sr.Ids() :: sr.store(n, id)
    }

    ghost function WriteAt(n: NodeID): ClipWrite {
      if |sr.evs| == 1 then Whole(sr.Arrived(n, 0).payload) else Batched(batchID, MIME_PATH, Joined(Stored(n)))
    }

    /** No part of the batch is at node `n` yet. */
    predicate IsClosedAt(n: NodeID) {
      batchID !in At(sr.start, n).batches
    }
  }

  predicate IsFileOf(fc: FileCopy, ev: EventMessage) {
    IsPath(ev.payload.mime) && ev.payload.batchID == fc.batchID && ev.payload.batchTotal == fc.total
  }

  ghost predicate IsCopy(fc: FileCopy) {
    && fc.batchID != 0 && |fc.sr.evs| <= fc.total && 1 <= fc.total
    && (forall i :: 0 <= i < |fc.sr.evs| ==> IsFileOf(fc, fc.sr.evs[i]))
  }

  ghost predicate ValidCopy(fc: FileCopy) {
    ValidSeries(fc.sr) && IsCopy(fc)
  }

  /** What a file looks like on its way. */
  lemma FileFacts(fc: FileCopy, n: NodeID, i: nat)
    requires ValidCopy(fc) && i < |fc.sr.evs|
    ensures var ev, a, m := fc.sr.evs[i], fc.sr.Announcement(i), fc.sr.Arrived(n, i);
      && a.from == m.from == ev.from == fc.sr.author
      && a.payload.id == m.payload.id == ev.payload.id && a.payload.length == m.payload.length == ev.payload.length
      && a.payload.batchID == m.payload.batchID == ev.payload.batchID == fc.batchID != 0
      && a.payload.batchTotal == m.payload.batchTotal == ev.payload.batchTotal == fc.total
      && m.payload.mime == MIME_PATH && (IsBatched(m.payload) <==> 2 <= fc.total)
      && m.payload.data == fc.sr.store(n, ev.payload.id)
  {
    ItemFacts(fc.sr, n, i);
    assert IsFileOf(fc, fc.sr.evs[i]);
    hide ValidSeries;
  }

  /** The batch of a copy does not expire. */
  predicate KeepsBatch(fc: FileCopy, steps: seq<Step>) {
    forall step :: step in steps && step.ExpireBatch? ==> step.bID != fc.batchID
  }

  /** The update for a file becomes a message that can pass exactly if the file is not empty and its digest is not 0. */
  lemma UpdateIsItemExactlyWhenNotEmpty(fc: FileCopy, xxhash: Bytes -> Uint64, files: seq<FileInfo>, i: nat,
                                        id: MessageID, now: Instant)
    requires i < |files| == fc.total < TWO32 && |files[i].path| < TWO64 && fc.batchID == F.BatchIDOf(xxhash, files)
    requires Author(id) == fc.sr.author && id !in fc.sr.start.published && id != 0
    ensures
      var ev := CopyEvent(fc.sr.author, F.UpdateOf(xxhash, files, i), id, now);
      IsFileOf(fc, ev) && (IsItem(fc.sr, ev) <==> xxhash(F.Fingerprint(files[i])) != 0 && files[i].size != 0)
  {
  }

  // ---------------------------------------------------------------- what the author serves

  ghost function LogOf(f: Fifo<MessageID, EventMessage>): seq<(MessageID, EventMessage)>
    requires ValidFifo(f, HISTORY_SIZE)
  {
    seq(|f.order|, i requires 0 <= i < |f.order| => (f.order[i], f.data[f.order[i]]))
  }

  ghost function FilesOf(fc: FileCopy): seq<(MessageID, EventMessage)> {
    seq(|fc.sr.evs|, i requires 0 <= i < |fc.sr.evs| => (fc.sr.evs[i].payload.id, fc.sr.evs[i]))
  }

  lemma StartServes(sr: Series)
    requires ValidSeries(sr)
    ensures ValidFifo(At(sr.start, sr.author).chan.served, HISTORY_SIZE)
  {
  }

  /** What has gone into the served files of the author when `c` files have been copied. */
  ghost function Served(fc: FileCopy, c: nat): seq<(MessageID, EventMessage)>
    requires ValidCopy(fc) && c <= |fc.sr.evs|
  {
    StartServes(fc.sr);
    LogOf(At(fc.sr.start, fc.sr.author).chan.served) + FilesOf(fc)[..c]
  }

  ghost predicate AuthorServes(fc: FileCopy, s: State, c: nat)
    requires ValidCopy(fc) && c <= |fc.sr.evs|
  {
    var chan := At(s, fc.sr.author).chan;
    && chan.last == (if c == 0 then At(fc.sr.start, fc.sr.author).chan.last else fc.sr.evs[c - 1])
    && IsRecent(chan.served, HISTORY_SIZE, Served(fc, c))
  }

  lemma AuthorStarts(fc: FileCopy)
    requires ValidCopy(fc)
    ensures AuthorServes(fc, fc.sr.start, 0)
  {
    StartServes(fc.sr);
    var f := At(fc.sr.start, fc.sr.author).chan.served;
    assert Served(fc, 0) == LogOf(f);
    assert Recent(LogOf(f), HISTORY_SIZE) == LogOf(f);
    hide ValidCopy, At;
  }

  /** A file has its place in what is served, behind all that was served before. */
  lemma PlaceOfFile(fc: FileCopy, c: nat, i: nat, x: nat)
    requires ValidCopy(fc) && c <= |fc.sr.evs| && i < |fc.sr.evs| && x < |Served(fc, c)|
    ensures c <= |Served(fc, c)|
    ensures Served(fc, c)[x].0 == fc.sr.evs[i].payload.id <==> x == |Served(fc, c)| - c + i
    ensures x == |Served(fc, c)| - c + i ==> Served(fc, c)[x].1 == fc.sr.evs[i]
  {
    StartServes(fc.sr);
    IdsAreNew(fc.sr, fc.sr.author, i);
    var before := LogOf(At(fc.sr.start, fc.sr.author).chan.served);
    hide ValidCopy, At;
    if x < |before| {
      assert Served(fc, c)[x] == before[x];
    } else {
      var y := x - |before|;
      assert Served(fc, c)[x] == FilesOf(fc)[y];
      if y != i {
        ItemsDiffer(fc.sr, y, i);
      }
    }
  }

  /** A file counts among the last served exactly while no more than `HISTORY_SIZE` have been copied from it on. */
  lemma RecentFiles(fc: FileCopy, c: nat, i: nat)
    requires ValidCopy(fc) && c <= |fc.sr.evs| && i < |fc.sr.evs|
    ensures forall e :: e in Recent(Served(fc, c), HISTORY_SIZE) && e.0 == fc.sr.evs[i].payload.id ==>
      e.1 == fc.sr.evs[i]
    ensures (exists e :: e in Recent(Served(fc, c), HISTORY_SIZE) && e.0 == fc.sr.evs[i].payload.id)
       <==> i < c <= i + HISTORY_SIZE
  {
    hide ValidCopy, Served, Recent;
    var log := Served(fc, c);
    assert c <= |log| by { ServedCount(fc, c); }
    forall x: nat | x < |log|
      ensures log[x].0 == fc.sr.evs[i].payload.id <==> x == |log| - c + i
      ensures x == |log| - c + i ==> log[x].1 == fc.sr.evs[i]
    {
      PlaceOfFile(fc, c, i, x);
    }
    RecentAre(log);
    if i < c <= i + HISTORY_SIZE {
      assert log[|log| - c + i] in Recent(log, HISTORY_SIZE);
    }
  }

  lemma ServedCount(fc: FileCopy, c: nat)
    requires ValidCopy(fc) && c <= |fc.sr.evs|
    ensures c <= |Served(fc, c)|
  {
  }

  lemma RecentAre(log: seq<(MessageID, EventMessage)>)
    ensures forall e :: e in Recent(log, HISTORY_SIZE) <==>
      exists x :: 0 <= x < |log| && |log| - HISTORY_SIZE <= x && log[x] == e
  {
    var recent := Recent(log, HISTORY_SIZE);
    var first := |log| - |recent|;
    forall e | e in recent ensures exists x :: 0 <= x < |log| && |log| - HISTORY_SIZE <= x && log[x] == e {
      var y :| 0 <= y < |recent| && recent[y] == e;
      assert log[first + y] == e;
    }
    forall x | 0 <= x < |log| && |log| - HISTORY_SIZE <= x ensures log[x] in recent {
      assert recent[x - first] == log[x];
    }
  }

  /** A history holds just the keys of its last entries. */
  lemma RecentIsHeld(f: Fifo<MessageID, EventMessage>, log: seq<(MessageID, EventMessage)>, id: MessageID)
    requires IsRecent(f, HISTORY_SIZE, log)
    ensures id in f.data <==> exists e :: e in Recent(log, HISTORY_SIZE) && e.0 == id
    ensures id in f.data ==> (id, f.data[id]) in Recent(log, HISTORY_SIZE)
  {
    var recent := Recent(log, HISTORY_SIZE);
    forall e | e in recent ensures e.0 in f.data && f.data[e.0] == e.1 {
      var x :| 0 <= x < |recent| && recent[x] == e;
    }
    if id in f.data {
      var x :| 0 <= x < |f.order| && f.order[x] == id;
      assert recent[x] in recent;
    }
  }

  /** With `c` files copied, the author answers a request for file `i` exactly if it has copied that file and not
      `HISTORY_SIZE` more. */
  lemma AuthorAnswersExactlyWhenRecent(fc: FileCopy, s: State, c: nat, i: nat)
    requires ValidCopy(fc) && c <= |fc.sr.evs| && AuthorServes(fc, s, c) && i < |fc.sr.evs|
    ensures Lookup(At(s, fc.sr.author).chan, fc.sr.evs[i].payload.id)
         == if i < c <= i + HISTORY_SIZE then Some(fc.sr.evs[i]) else None
  {
    hide At, IsRecent, Served;
    var chan, id := At(s, fc.sr.author).chan, fc.sr.evs[i].payload.id;
    RecentFiles(fc, c, i);
    RecentIsHeld(chan.served, Served(fc, c), id);
    IdsAreNew(fc.sr, fc.sr.author, i);
    if 0 < c && c - 1 != i {
      ItemsDiffer(fc.sr, c - 1, i);
    }
    hide ValidCopy;
  }

  lemma ServedNext(fc: FileCopy, c: nat)
    requires ValidCopy(fc) && c < |fc.sr.evs|
    ensures Served(fc, c + 1) == Served(fc, c) + [(fc.sr.evs[c].payload.id, fc.sr.evs[c])]
  {
    hide LogOf;
    assert FilesOf(fc)[..c + 1] == FilesOf(fc)[..c] + [(fc.sr.evs[c].payload.id, fc.sr.evs[c])];
  }

  lemma NotYetServed(fc: FileCopy, s: State, c: nat)
    requires ValidCopy(fc) && c < |fc.sr.evs| && AuthorServes(fc, s, c)
    ensures fc.sr.evs[c].payload.id !in At(s, fc.sr.author).chan.served.data
  {
    hide ValidCopy, At;
    AuthorAnswersExactlyWhenRecent(fc, s, c, c);
  }

  lemma NextCopyServes(fc: FileCopy, s: State, c: nat)
    requires ValidCopy(fc) && c < |fc.sr.evs| && AuthorServes(fc, s, c)
    requires CopyPasses(At(s, fc.sr.author), fc.sr.evs[c])
    ensures AuthorServes(fc, AfterCopy(fc.sr.cfg, s, fc.sr.author, fc.sr.evs[c]), c + 1)
  {
    hide IsRecent, Served, At, ValidSeries;
    var ev, chan := fc.sr.evs[c], At(s, fc.sr.author).chan;
    assert IsFileOf(fc, ev);
    NodeAfterCopy(fc.sr.cfg, s, fc.sr.author, ev, fc.sr.author);
    NotYetServed(fc, s, c);
    ServedNext(fc, c);
    InsertIsRecent(chan.served, HISTORY_SIZE, Served(fc, c), ev.payload.id, ev);
    hide ValidCopy;
  }

  /** Every step of a copy keeps to what the author serves. */
  lemma FirstServes(fc: FileCopy, s: State, c: nat, steps: seq<Step>)
    requires ValidCopy(fc) && SourceFollows(fc.sr, s, c) && AuthorServes(fc, s, c)
    requires CanRun(fc.sr.cfg, s, steps) && steps != [] && CopiesInOrder(fc.sr, s, c, steps)
    ensures SourceFollows(fc.sr, Apply(fc.sr.cfg, s, steps[0]), CopiedBy(s, steps[0], c))
    ensures AuthorServes(fc, Apply(fc.sr.cfg, s, steps[0]), CopiedBy(s, steps[0], c))
  {
    hide ValidSeries, HoldsTruly, TrafficFollows, IsRecent, Served, At, CopyPasses, CopyEvent, AfterCopy, IsCopy,
      AfterDeliverAnnounce, AfterHandleAnnounce, AfterServeRequest, AfterDeliverMessage, AfterInject, AfterExpire;
    FirstIsStepOf(fc.sr, s, c, steps);
    if Brings(s, steps[0]) {
      NextCopyServes(fc, s, c);
    } else {
      StepLeavesAuthor(fc.sr, s, c, steps[0]);
    }
  }
}
