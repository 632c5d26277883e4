/** Small copies of files between two nodes: copies that are complete, one whose first file is served no longer, and one
    whose first file the other node takes for an old one. */
module FilePair {
  import opened Domain
  import opened Channel
  import opened History
  import opened Node
  import opened Gossip
  import opened GossipSafety
  import opened GossipTermination
  import opened CopySeries
  import opened SeriesAsks
  import opened SeriesFlow
  import opened FileCopies
  import opened FileLoss
  import opened FileDelivery

  /** Two nodes that know each other. */
  const PAIR := Config({0, 1}, map[0 := {1}, 1 := {0}], map[0 := 9, 1 := 9])

  lemma PairIsValid()
    ensures ValidConfig(PAIR)
  {
  }

  function FileEvent(i: nat, k: nat): EventMessage
    requires i < k <= 4000
  {
    Event(0, 0, Message(i + 1, [65], MIME_PATH, i + 1, 1, [65], 7, k))
  }

  /** `k` files copied at node 0. */
  function FilesInPair(start: State, k: nat): FileCopy
    requires k <= 4000
  {
    FileCopy(Series(PAIR, start, 0, seq(k, i requires 0 <= i < k => FileEvent(i, k)), id => [65], (n, id) => [66]),
             7, k)
  }

  /** They are a copy from any start that knows none of them. */
  lemma FilesInPairAreCopied(start: State, k: nat)
    requires 1 <= k <= 4000 && Inv(PAIR, start) && ValidFilters(start) && Quiescent(start)
    requires forall id :: 1 <= id <= k ==> id !in start.published
    ensures ValidCopy(FilesInPair(start, k))
  {
    hide Inv, ValidFilters, Quiescent;
    var fc := FilesInPair(start, k);
    forall i | 0 <= i < k ensures IsItem(fc.sr, fc.sr.evs[i]) && IsFileOf(fc, fc.sr.evs[i]) {
      assert fc.sr.evs[i] == FileEvent(i, k);
    }
    assert IsSeries(fc.sr);
  }

  lemma PeerOfPair()
    ensures PAIR.Peers(0) == {1} && PAIR.Max(1) == 9
  {
  }

  lemma NewPairIsGood()
    ensures Inv(PAIR, Initial(PAIR)) && ValidFilters(Initial(PAIR)) && Quiescent(Initial(PAIR))
  {
    PairIsValid();
    InitialIsGood(PAIR);
  }

  /** Up to five files between two new nodes are written at rest, whatever the steps, if and only if none is gone when
      it is requested. */
  lemma FiveFilesArrive(k: nat, steps: seq<Step>)
    requires 1 <= k <= 5
    requires CanRun(PAIR, Initial(PAIR), steps)
    requires CopiesInOrder(FilesInPair(Initial(PAIR), k).sr, Initial(PAIR), 0, steps)
    requires KeepsBatch(FilesInPair(Initial(PAIR), k), steps) && Quiescent(Gossip.Run(PAIR, Initial(PAIR), steps))
    ensures At(Gossip.Run(PAIR, Initial(PAIR), steps), 1).clip
         == if NoneIsServedGone(FilesInPair(Initial(PAIR), k), 1, steps) then [FilesInPair(Initial(PAIR), k).WriteAt(1)]
            else []
  {
    NewPairIsGood();
    FilesInPairAreCopied(Initial(PAIR), k);
    var fc := FilesInPair(Initial(PAIR), k);
    PeerOfPair();
    hide Inv, ValidFilters, CopiesInOrder, ValidCopy, FileCopy.WriteAt, KeepsBatch, NoneIsServedGone;
    assert At(Initial(PAIR), 1) == NEW_NODE;
    NewFilesArrive(fc, steps, 1);
  }

  /** When six files are copied before the first request is served, the other node never writes them. */
  lemma FirstOfSixFilesIsLost(steps: seq<Step>)
    requires CanRun(PAIR, Initial(PAIR), steps)
    requires CopiesInOrder(FilesInPair(Initial(PAIR), 6).sr, Initial(PAIR), 0, steps)
    requires IsCopiedFirst(FilesInPair(Initial(PAIR), 6).sr, Initial(PAIR), 0, steps)
    ensures At(Gossip.Run(PAIR, Initial(PAIR), steps), 1).clip == []
  {
    NewPairIsGood();
    FilesInPairAreCopied(Initial(PAIR), 6);
    var fc := FilesInPair(Initial(PAIR), 6);
    PeerOfPair();
    hide Inv, ValidFilters, CopiesInOrder, IsCopiedFirst, ValidCopy;
    assert At(Initial(PAIR), 1) == NEW_NODE;
    ManyFilesReachNobody(fc, steps, 1);
  }

  /** Node 0 has copied the first file before, and node 1 has let its announce through. */
  function AfterFirstFile(): State {
    var ann: EventAnnounce := Event(0, 0, Announce(4000, MIME_PATH, 1, 1, 0, 0));
    var s := Initial(PAIR);
    s.(nodes := s.nodes[1 := NEW_NODE.(chan := NEW_CHAN.(announced := Fifo([1], map[1 := ann])))],
       published := map[4000 := Message(4000, [65], MIME_PATH, 1, 1, [65], 0, 0)])
  }

  lemma FirstFileIsPublished()
    ensures GoodPublished(PAIR, AfterFirstFile().published)
  {
  }

  lemma NodesAreGood(n: NodeID)
    requires n in PAIR.nodes
    ensures n in AfterFirstFile().nodes && GoodNode(AfterFirstFile().published, n, AfterFirstFile().nodes[n])
  {
  }

  lemma FiltersAreValid()
    ensures ValidFilters(AfterFirstFile())
  {
  }

  lemma AfterFirstFileIsGood()
    ensures Inv(PAIR, AfterFirstFile()) && ValidFilters(AfterFirstFile()) && Quiescent(AfterFirstFile())
  {
    hide ValidConfig, GoodPublished, GoodNode, ValidFilters;
    PairIsValid();
    FirstFileIsPublished();
    FiltersAreValid();
    forall n | n in PAIR.nodes
      ensures n in AfterFirstFile().nodes && GoodNode(AfterFirstFile().published, n, AfterFirstFile().nodes[n])
    {
      NodesAreGood(n);
    }
  }

  /** Copying the first file and another after it: node 1 takes the announce of the first for an old one, and never
      writes either. */
  lemma FileCopiedBeforeIsLost(steps: seq<Step>)
    requires CanRun(PAIR, AfterFirstFile(), steps)
    requires CopiesInOrder(FilesInPair(AfterFirstFile(), 2).sr, AfterFirstFile(), 0, steps)
    ensures At(Gossip.Run(PAIR, AfterFirstFile(), steps), 1).clip == []
  {
    hide Inv, ValidFilters, CopiesInOrder, ValidCopy, KeepsHold, AfterFirstFile, FilesInPair;
    AfterFirstFileIsGood();
    assert forall id :: 1 <= id <= 2 ==> id !in AfterFirstFile().published by { FirstFileFacts(); }
    FilesInPairAreCopied(AfterFirstFile(), 2);
    FirstFileFacts();
    FirstFileIsHeld();
    HeldFileIsLost(FilesInPair(AfterFirstFile(), 2), steps, 1, 0);
  }

  lemma FirstFileFacts()
    ensures
      var fc := FilesInPair(AfterFirstFile(), 2);
      && (forall id :: 1 <= id <= 2 ==> id !in AfterFirstFile().published)
      && fc.sr.start == AfterFirstFile() && fc.sr.cfg == PAIR && fc.sr.author == 0 && |fc.sr.evs| == 2
      && fc.sr.evs[0].payload.length <= fc.sr.cfg.Max(1) && fc.IsClosedAt(1) && At(AfterFirstFile(), 1).clip == []
  {
    PeerOfPair();
    assert FilesInPair(AfterFirstFile(), 2).sr.evs[0] == FileEvent(0, 2);
  }

  lemma FirstFileIsHeld()
    ensures |FilesInPair(AfterFirstFile(), 2).sr.evs| == 2 && KeepsHold(FilesInPair(AfterFirstFile(), 2).sr, 1, 0)
  {
    var sr := FilesInPair(AfterFirstFile(), 2).sr;
    assert sr.evs[0] == FileEvent(0, 2) && sr.evs[1] == FileEvent(1, 2);
    var f := At(sr.start, 1).chan.announced;
    assert f == Fifo([1], map[1 := Event(0, 0, Announce(4000, MIME_PATH, 1, 1, 0, 0))]);
    assert sr.Hashes() == {1, 2};
    hide IsStuck, AfterFirstFile;
    AgedIsStuck(f, sr.Hashes(), 1);
  }
}
