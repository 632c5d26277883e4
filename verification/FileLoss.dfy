/** A file of a copy that is lost, and the batch with it: it never gets past its author's watcher, its announce is
    taken for an old one, or it is no longer served or no longer there when it is requested. */
module FileLoss {
  import opened Wrappers
  import opened Collections
  import opened Machine
  import opened Domain
  import opened Channel
  import opened History
  import opened Batch
  import opened Node
  import opened Gossip
  import opened GossipTermination
  import opened CopySeries
  import opened SeriesFlow
  import opened SeriesAsks
  import opened FileCopies

  /** The ids of the files but file `i`; of all files if `i` is none of them. */
  ghost function OtherIds(fc: FileCopy, i: nat): set<MessageID> {
    if i < |fc.sr.evs| then fc.sr.Ids() - {fc.sr.evs[i].payload.id} else fc.sr.Ids()
  }

  /** `i` is one of the files, or stands for one that never became a message. */
  predicate IsMissable(fc: FileCopy, i: nat) {
    i < |fc.sr.evs| || |fc.sr.evs| < fc.total
  }

  /** The batch, where it is open, lacks file `i`. */
  ghost predicate Lacks(fc: FileCopy, b: Batches, i: nat) {
    fc.batchID in b ==> b[fc.batchID].total == fc.total && b[fc.batchID].items.Keys <= OtherIds(fc, i)
  }

  /** Neither is file `i` on its way into node `n` nor has the batch been written there. */
  ghost predicate IsWithout(fc: FileCopy, s: State, n: NodeID, i: nat) {
    && At(s, n).clip == At(fc.sr.start, n).clip && Lacks(fc, At(s, n).batches, i)
    && (i < |fc.sr.evs| ==> s.msgs[fc.sr.MessageTo(n, i)] == 0 && s.pending[fc.sr.ArrivedAt(n, i)] == 0)
  }

  /** Node `n` could have file `i`, but has not. */
  ghost predicate IsWithoutFile(fc: FileCopy, s: State, n: NodeID, i: nat) {
    && n != fc.sr.author && IsMissable(fc, i) && IsWithout(fc, s, n, i)
    && (i < |fc.sr.evs| ==> fc.sr.evs[i].payload.length <= fc.sr.cfg.Max(n))
  }

  lemma OtherIdCount(fc: FileCopy, i: nat)
    requires ValidCopy(fc) && IsMissable(fc, i)
    ensures |OtherIds(fc, i)| < fc.total
  {
    IdCount(fc.sr);
    hide ValidSeries, Series.Ids;
  }

  /** A batch that lacks a file does not complete by the others. */
  lemma OthersDoNotFill(fc: FileCopy, b: Batches, i: nat, msg: Message)
    requires ValidCopy(fc) && IsMissable(fc, i) && Lacks(fc, b, i)
    requires msg.batchID == fc.batchID && msg.batchTotal == fc.total && msg.id in OtherIds(fc, i)
    ensures Lacks(fc, Collected(b, msg), i) && Ready(b, msg) == None
  {
    hide ValidCopy, Joined, OtherIds, WithItem, Complete;
    StillLacks(fc, b, i, msg);
    OtherIdCount(fc, i);
    FewerAreIncomplete(WithItem(b, msg), OtherIds(fc, i));
  }

  lemma StillLacks(fc: FileCopy, b: Batches, i: nat, msg: Message)
    requires Lacks(fc, b, i) && msg.batchID == fc.batchID && msg.batchTotal == fc.total && msg.id in OtherIds(fc, i)
    ensures WithItem(b, msg).total == fc.total && WithItem(b, msg).items.Keys <= OtherIds(fc, i)
  {
    hide OtherIds;
  }

  lemma FewerAreIncomplete(state: BatchState, ids: set<MessageID>)
    requires state.items.Keys <= ids && |ids| < state.total
    ensures !Complete(state)
  {
    SubsetSize(state.items.Keys, ids);
    assert |state.items| == |state.items.Keys|;
  }

  lemma OtherIsOther(fc: FileCopy, i: nat, j: nat)
    requires ValidCopy(fc) && j < |fc.sr.evs| && i != j
    ensures fc.sr.evs[j].payload.id in OtherIds(fc, i)
  {
    if i < |fc.sr.evs| {
      ItemsDiffer(fc.sr, i, j);
    }
    hide ValidCopy;
  }

  lemma HandleAnnounceWithout(fc: FileCopy, s: State, c: nat, t: Ticket, n: NodeID, i: nat)
    requires ValidCopy(fc) && SourceFollows(fc.sr, s, c) && t in s.tickets && IsWithoutFile(fc, s, n, i)
    ensures IsWithout(fc, AfterHandleAnnounce(fc.sr.cfg, s, t), n, i)
  {
    hide ValidSeries, HoldsTruly, At, Collected, Lacks, Requests, IsCopy;
    NodeAfterHandleAnnounce(fc.sr.cfg, s, t, n);
    var j :| 0 <= j < c && j < |fc.sr.evs| && t.ev == fc.sr.Announcement(j);
    FileFacts(fc, n, j);
    if n == t.node && fc.sr.cfg.Max(n) < t.ev.payload.length {
      OtherIsOther(fc, i, j);
      OthersDoNotFill(fc, At(s, n).batches, i, NackOf(t.ev.payload).(data := []));
    }
  }

  lemma DeliverMessageWithout(fc: FileCopy, s: State, c: nat, p: MsgPacket, stored: Option<Bytes>, n: NodeID, i: nat)
    requires ValidCopy(fc) && SourceFollows(fc.sr, s, c) && p in s.msgs && GoesWell(fc.sr, DeliverMessage(p, stored))
    requires IsWithoutFile(fc, s, n, i)
    ensures IsWithout(fc, AfterDeliverMessage(fc.sr.cfg, s, p, stored), n, i)
  {
    hide ValidSeries, HoldsTruly, At, Collected, Lacks, Sent, Accepts, IsCopy;
    NodeAfterDeliverMessage(fc.sr.cfg, s, p, stored, n);
    var j :| 0 <= j < c && j < |fc.sr.evs| && p == fc.sr.MessageTo(p.dst, j);
    PassesAsArrived(fc.sr, At(s, p.dst), p.dst, j);
    FileFacts(fc, p.dst, j);
    if j != i {
      if i < |fc.sr.evs| {
        TokensDiffer(fc.sr, n, i, j);
      }
      OtherIsOther(fc, i, j);
      OthersDoNotFill(fc, At(s, n).batches, i, p.ev.payload.(data := []));
    }
  }

  lemma InjectWithout(fc: FileCopy, s: State, c: nat, p: Pending, n: NodeID, i: nat)
    requires ValidCopy(fc) && SourceFollows(fc.sr, s, c) && p in s.pending && IsWithoutFile(fc, s, n, i)
    ensures IsWithout(fc, AfterInject(fc.sr.cfg, s, p), n, i)
  {
    hide ValidSeries, HoldsTruly, At, Collected, Lacks, Ready, Announcements, IsCopy;
    NodeAfterInject(fc.sr.cfg, s, p, n);
    if n == p.node {
      var j :| 0 <= j < c && j < |fc.sr.evs| && p == fc.sr.ArrivedAt(n, j);
      FileFacts(fc, n, j);
      OtherIsOther(fc, i, j);
      OthersDoNotFill(fc, At(s, n).batches, i, p.ev.payload);
      SeveralAreExpected(fc, i, j);
    }
  }

  lemma SeveralAreExpected(fc: FileCopy, i: nat, j: nat)
    requires ValidCopy(fc) && IsMissable(fc, i) && j < |fc.sr.evs| && i != j
    ensures 2 <= fc.total
  {
  }

  /** A step keeps a node without file `i`, if it does not answer its request for it. */
  lemma StepWithout(fc: FileCopy, s: State, c: nat, step: Step, n: NodeID, i: nat)
    requires ValidCopy(fc) && SourceFollows(fc.sr, s, c) && IsStepOf(fc.sr, s, step) && IsWithoutFile(fc, s, n, i)
    requires step.ExpireBatch? || step.Copy? || step.DeliverAnnounce? || step.ServeRequest?
    requires i < |fc.sr.evs| ==> !Answers(fc.sr, s, step, n, i)
    ensures IsWithout(fc, Apply(fc.sr.cfg, s, step), n, i)
  {
    hide ValidSeries, HoldsTruly, TrafficFollows, At, CopyEvent, Announced, IsNews, CopyPasses, GoesWell, OtherIds,
      Answers;
    if i < |fc.sr.evs| {
      StepMoves(fc.sr, s, c, step, n, i);
    }
    hide AfterCopy, AfterDeliverAnnounce, AfterServeRequest, AfterExpire;
    match step
    case Copy(m, u, id, now) => NodeAfterCopy(fc.sr.cfg, s, m, CopyEvent(m, u, id, now), n);
    case DeliverAnnounce(p) => NodeAfterDeliverAnnounce(s, p, n);
    case ServeRequest(p, file) => NodeAfterServeRequest(s, p, file, n);
    case ExpireBatch(m, bID) => NodeAfterExpire(s, m, bID, n);
  }

  lemma AnyStepWithout(fc: FileCopy, s: State, c: nat, step: Step, n: NodeID, i: nat)
    requires ValidCopy(fc) && SourceFollows(fc.sr, s, c) && IsStepOf(fc.sr, s, step) && IsWithoutFile(fc, s, n, i)
    requires i < |fc.sr.evs| ==> !Answers(fc.sr, s, step, n, i)
    ensures IsWithout(fc, Apply(fc.sr.cfg, s, step), n, i)
  {
    hide ValidCopy, SourceFollows, IsWithoutFile, IsWithout, Brings, AfterHandleAnnounce, AfterDeliverMessage,
      AfterInject;
    match step
    case HandleAnnounce(t) => HandleAnnounceWithout(fc, s, c, t, n, i);
    case DeliverMessage(p, stored) => DeliverMessageWithout(fc, s, c, p, stored, n, i);
    case Inject(p) => InjectWithout(fc, s, c, p, n, i);
    case _ =>
      hide Apply;
      StepWithout(fc, s, c, step, n, i);
  }

  lemma StartIsWithout(fc: FileCopy, n: NodeID, i: nat)
    requires ValidCopy(fc) && fc.IsClosedAt(n)
    ensures IsWithout(fc, fc.sr.start, n, i)
  {
    StartIsQuiet(fc.sr);
    hide ValidCopy;
  }

  lemma {:induction false} RunWithout(fc: FileCopy, s: State, c: nat, steps: seq<Step>, n: NodeID, i: nat)
    requires ValidCopy(fc) && SourceFollows(fc.sr, s, c) && IsWithoutFile(fc, s, n, i)
    requires CanRun(fc.sr.cfg, s, steps) && CopiesInOrder(fc.sr, s, c, steps)
    requires i < |fc.sr.evs| ==> IsNeverAnswered(fc.sr, s, n, i, steps)
    ensures IsWithoutFile(fc, Gossip.Run(fc.sr.cfg, s, steps), n, i)
    decreases |steps|
  {
    hide ValidCopy, SourceFollows, IsWithout, Apply, Enabled, IsStepOf, CopiesInOrder, Answers;
    if steps != [] {
      FirstIsStepOf(fc.sr, s, c, steps);
      AnyStepWithout(fc, s, c, steps[0], n, i);
      RunWithout(fc, Apply(fc.sr.cfg, s, steps[0]), CopiedBy(s, steps[0], c), steps[1..], n, i);
    }
  }

  /** Of a copy of any number of files: if a node that could take a file in never has its request for it answered,
      it never writes the batch. */
  lemma UnansweredFileIsLost(fc: FileCopy, steps: seq<Step>, n: NodeID, i: nat)
    requires ValidCopy(fc) && n != fc.sr.author && fc.IsClosedAt(n)
    requires i < |fc.sr.evs| && fc.sr.evs[i].payload.length <= fc.sr.cfg.Max(n)
    requires CanRun(fc.sr.cfg, fc.sr.start, steps) && CopiesInOrder(fc.sr, fc.sr.start, 0, steps)
    requires IsNeverAnswered(fc.sr, fc.sr.start, n, i, steps)
    ensures At(Gossip.Run(fc.sr.cfg, fc.sr.start, steps), n).clip == At(fc.sr.start, n).clip
  {
    hide ValidSeries, SourceFollows, CopiesInOrder, IsNeverAnswered, At, Lacks;
    SourceStarts(fc.sr);
    StartIsWithout(fc, n, i);
    RunWithout(fc, fc.sr.start, 0, steps, n, i);
  }

  /** If one of the files never became a message, nobody writes the batch. */
  lemma DroppedFileIsLost(fc: FileCopy, steps: seq<Step>, n: NodeID)
    requires ValidCopy(fc) && n != fc.sr.author && fc.IsClosedAt(n) && |fc.sr.evs| < fc.total
    requires CanRun(fc.sr.cfg, fc.sr.start, steps) && CopiesInOrder(fc.sr, fc.sr.start, 0, steps)
    ensures At(Gossip.Run(fc.sr.cfg, fc.sr.start, steps), n).clip == At(fc.sr.start, n).clip
  {
    hide ValidSeries, SourceFollows, CopiesInOrder, At, Lacks;
    SourceStarts(fc.sr);
    StartIsWithout(fc, n, |fc.sr.evs|);
    RunWithout(fc, fc.sr.start, 0, steps, n, |fc.sr.evs|);
  }

  /** A node whose announce filter keeps hold of the content of a file never writes the batch: the announce is taken
      for an old one, without a request or a refusal. */
  lemma HeldFileIsLost(fc: FileCopy, steps: seq<Step>, n: NodeID, i: nat)
    requires ValidCopy(fc) && n != fc.sr.author && fc.IsClosedAt(n)
    requires i < |fc.sr.evs| && fc.sr.evs[i].payload.length <= fc.sr.cfg.Max(n)
    requires KeepsHold(fc.sr, n, i)
    requires CanRun(fc.sr.cfg, fc.sr.start, steps) && CopiesInOrder(fc.sr, fc.sr.start, 0, steps)
    ensures At(Gossip.Run(fc.sr.cfg, fc.sr.start, steps), n).clip == At(fc.sr.start, n).clip
  {
    SourceStarts(fc.sr);
    StartIsQuiet(fc.sr);
    FilterIsValid(fc.sr, n);
    hide ValidSeries, SourceFollows, CopiesInOrder, IsNeverAnswered, At, ValidFifo, IsStuck;
    HeldIsNeverAnswered(fc.sr, fc.sr.start, 0, n, i, steps);
    UnansweredFileIsLost(fc, steps, n, i);
  }

  // ---------------------------------------------------------------- files that are gone

  /** Whenever a request of node `n` for message `i` is served, its file could not be opened. */
  predicate IsGoneWhenServed(sr: Series, n: NodeID, i: nat, steps: seq<Step>)
    requires i < |sr.evs|
  {
    forall step :: step in steps && Serves(sr, step, n, i) ==> step.file.None?
  }

  lemma {:induction false} GoneFileIsNeverAnswered(sr: Series, s: State, n: NodeID, i: nat, steps: seq<Step>)
    requires i < |sr.evs| && IsPath(sr.evs[i].payload.mime) && IsGoneWhenServed(sr, n, i, steps)
    requires CanRun(sr.cfg, s, steps)
    ensures IsNeverAnswered(sr, s, n, i, steps)
    decreases |steps|
  {
    hide Apply, Enabled, Lookup, At, Serves;
    if steps != [] {
      assert steps[0] in steps && forall step :: step in steps[1..] ==> step in steps;
      GoneFileIsNeverAnswered(sr, Apply(sr.cfg, s, steps[0]), n, i, steps[1..]);
    }
  }

  /** A file that is gone whenever a node's request for it is served is lost, and the batch with it. */
  lemma GoneFileIsLost(fc: FileCopy, steps: seq<Step>, n: NodeID, i: nat)
    requires ValidCopy(fc) && n != fc.sr.author && fc.IsClosedAt(n)
    requires i < |fc.sr.evs| && fc.sr.evs[i].payload.length <= fc.sr.cfg.Max(n)
    requires CanRun(fc.sr.cfg, fc.sr.start, steps) && CopiesInOrder(fc.sr, fc.sr.start, 0, steps)
    requires IsGoneWhenServed(fc.sr, n, i, steps)
    ensures At(Gossip.Run(fc.sr.cfg, fc.sr.start, steps), n).clip == At(fc.sr.start, n).clip
  {
    assert IsFileOf(fc, fc.sr.evs[i]);
    hide ValidCopy, CopiesInOrder, IsNeverAnswered, IsGoneWhenServed, At;
    GoneFileIsNeverAnswered(fc.sr, fc.sr.start, n, i, steps);
    UnansweredFileIsLost(fc, steps, n, i);
  }

  // ---------------------------------------------------------------- files that are overtaken

  /** Node `n` has no request for file `i` served before `HISTORY_SIZE` more files have been copied after it. */
  ghost predicate IsServedLate(sr: Series, s: State, c: nat, n: NodeID, i: nat, steps: seq<Step>)
    requires CanRun(sr.cfg, s, steps) && i < |sr.evs|
    decreases |steps|
  {
    steps == [] ||
    (&& (Serves(sr, steps[0], n, i) ==> i + HISTORY_SIZE < c)
     && IsServedLate(sr, Apply(sr.cfg, s, steps[0]), CopiedBy(s, steps[0], c), n, i, steps[1..]))
  }

  lemma {:induction false} LateIsNeverAnswered(fc: FileCopy, s: State, c: nat, n: NodeID, i: nat, steps: seq<Step>)
    requires ValidCopy(fc) && SourceFollows(fc.sr, s, c) && AuthorServes(fc, s, c) && i < |fc.sr.evs|
    requires CanRun(fc.sr.cfg, s, steps) && CopiesInOrder(fc.sr, s, c, steps) && IsServedLate(fc.sr, s, c, n, i, steps)
    ensures IsNeverAnswered(fc.sr, s, n, i, steps)
    decreases |steps|
  {
    hide ValidCopy, SourceFollows, AuthorServes, CopiesInOrder, IsStepOf, Apply, Enabled, Brings, Lookup, Serves;
    if steps != [] {
      IsValidSeries(fc.sr, s, c);
      AuthorAnswersExactlyWhenRecent(fc, s, c, i);
      FirstIsStepOf(fc.sr, s, c, steps);
      FirstServes(fc, s, c, steps);
      LateIsNeverAnswered(fc, Apply(fc.sr.cfg, s, steps[0]), CopiedBy(s, steps[0], c), n, i, steps[1..]);
    }
  }

  /** A file that is overtaken by `HISTORY_SIZE` others before it is requested is lost, and the batch with it: no
      node that could have taken the file in ever writes the batch. */
  lemma OvertakenFileIsLost(fc: FileCopy, steps: seq<Step>, n: NodeID, i: nat)
    requires ValidCopy(fc) && n != fc.sr.author && fc.IsClosedAt(n)
    requires i < |fc.sr.evs| && fc.sr.evs[i].payload.length <= fc.sr.cfg.Max(n)
    requires CanRun(fc.sr.cfg, fc.sr.start, steps) && CopiesInOrder(fc.sr, fc.sr.start, 0, steps)
    requires IsServedLate(fc.sr, fc.sr.start, 0, n, i, steps)
    ensures At(Gossip.Run(fc.sr.cfg, fc.sr.start, steps), n).clip == At(fc.sr.start, n).clip
  {
    hide ValidSeries, SourceFollows, AuthorServes, CopiesInOrder, IsNeverAnswered, IsServedLate, At;
    SourceStarts(fc.sr);
    AuthorStarts(fc);
    LateIsNeverAnswered(fc, fc.sr.start, 0, n, i, steps);
    UnansweredFileIsLost(fc, steps, n, i);
  }

  /** No request is served before all files have been copied. */
  ghost predicate IsCopiedFirst(sr: Series, s: State, c: nat, steps: seq<Step>)
    requires CanRun(sr.cfg, s, steps)
    decreases |steps|
  {
    steps == [] ||
    (&& (steps[0].ServeRequest? ==> c == |sr.evs|)
     && IsCopiedFirst(sr, Apply(sr.cfg, s, steps[0]), CopiedBy(s, steps[0], c), steps[1..]))
  }

  lemma {:induction false} FirstIsServedLate(sr: Series, s: State, c: nat, n: NodeID, steps: seq<Step>)
    requires CanRun(sr.cfg, s, steps) && IsCopiedFirst(sr, s, c, steps) && HISTORY_SIZE < |sr.evs|
    ensures IsServedLate(sr, s, c, n, 0, steps)
    decreases |steps|
  {
    hide Apply, Enabled, Brings;
    if steps != [] {
      FirstIsServedLate(sr, Apply(sr.cfg, s, steps[0]), CopiedBy(s, steps[0], c), n, steps[1..]);
    }
  }

  /** If more files than a history holds are copied before the first request is served, no node that the first of them
      is not too large for ever writes the batch. */
  lemma ManyFilesReachNobody(fc: FileCopy, steps: seq<Step>, n: NodeID)
    requires ValidCopy(fc) && HISTORY_SIZE < |fc.sr.evs|
    requires n != fc.sr.author && fc.IsClosedAt(n) && fc.sr.evs[0].payload.length <= fc.sr.cfg.Max(n)
    requires CanRun(fc.sr.cfg, fc.sr.start, steps) && CopiesInOrder(fc.sr, fc.sr.start, 0, steps)
    requires IsCopiedFirst(fc.sr, fc.sr.start, 0, steps)
    ensures At(Gossip.Run(fc.sr.cfg, fc.sr.start, steps), n).clip == At(fc.sr.start, n).clip
  {
    hide ValidCopy, CopiesInOrder, IsServedLate, IsCopiedFirst, At;
    FirstIsServedLate(fc.sr, fc.sr.start, 0, n, steps);
    OvertakenFileIsLost(fc, steps, n, 0);
  }
}
