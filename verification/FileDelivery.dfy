/** A copy of files, followed from a quiet mesh until the mesh is quiet again: which direct peers of the author have
    written the files then. */
module FileDelivery {
  import opened Wrappers
  import opened Collections
  import opened Machine
  import opened Domain
  import opened Channel
  import opened History
  import opened Batch
  import opened Node
  import opened Gossip
  import opened GossipSafety
  import opened GossipTermination
  import opened CopySeries
  import opened SeriesFlow
  import opened SeriesAsks
  import opened FileCopies
  import opened FileLoss

  // ---------------------------------------------------------------- the batch at one node

  /** A direct peer of the author that all files fit, with no part of the batch yet. */
  ghost predicate CanTake(fc: FileCopy, n: NodeID) {
    n in fc.sr.cfg.Peers(fc.sr.author) && fc.sr.Fits(n) && fc.IsClosedAt(n)
  }

  ghost function WrittenIds(fc: FileCopy, ts: seq<Tally>): set<MessageID>
    requires |ts| == |fc.sr.evs|
  {
    set i | 0 <= i < |ts| && 0 < ts[i].written :: fc.sr.evs[i].payload.id
  }

  /** All files of the copy have come to be written. */
  ghost predicate IsFull(fc: FileCopy, ts: seq<Tally>)
    requires |ts| == |fc.sr.evs|
  {
    |fc.sr.evs| == fc.total && WrittenIds(fc, ts) == fc.sr.Ids()
  }

  /** Node `n` holds these items under their paths, and nothing else. */
  ghost predicate AreStored(fc: FileCopy, n: NodeID, items: map<MessageID, Bytes>, ids: set<MessageID>) {
    items.Keys == ids && forall id :: id in items ==> items[id] == fc.sr.store(n, id)
  }

  /** The batch is written when all files have come, and open with those that have until then. */
  ghost predicate BatchFollows(fc: FileCopy, st: NodeState, n: NodeID, ts: seq<Tally>)
    requires |ts| == |fc.sr.evs|
  {
    var ids, clip := WrittenIds(fc, ts), At(fc.sr.start, n).clip;
    if IsFull(fc, ts) then fc.batchID !in st.batches && st.clip == clip + [fc.WriteAt(n)]
    else
      && st.clip == clip && (fc.batchID in st.batches <==> ids != {})
      && (ids != {} ==>
            st.batches[fc.batchID].total == fc.total && AreStored(fc, n, st.batches[fc.batchID].items, ids))
  }

  lemma WrittenAreIds(fc: FileCopy, ts: seq<Tally>)
    requires |ts| == |fc.sr.evs|
    ensures WrittenIds(fc, ts) <= fc.sr.Ids()
  {
  }

  /** A batch of these files is complete exactly when it has all that were to be copied. */
  lemma CompleteExactlyWhenAll(fc: FileCopy, b: BatchState)
    requires ValidCopy(fc) && b.total == fc.total && b.items.Keys <= fc.sr.Ids()
    ensures Complete(b) <==> b.items.Keys == fc.sr.Ids() && |fc.sr.evs| == fc.total
  {
    hide Series.Ids;
    IdCount(fc.sr);
    SubsetSize(b.items.Keys, fc.sr.Ids());
    assert |b.items| == |b.items.Keys|;
    hide ValidSeries;
  }

  /** The batch with file `j` in it. */
  lemma WithFile(fc: FileCopy, st: NodeState, n: NodeID, j: nat, ts: seq<Tally>)
    requires ValidCopy(fc) && j < |fc.sr.evs| == |ts| && !IsFull(fc, ts) && BatchFollows(fc, st, n, ts)
    ensures
      var b, id := WithItem(st.batches, fc.sr.Arrived(n, j).payload), fc.sr.evs[j].payload.id;
      && st.clip == At(fc.sr.start, n).clip && b.total == fc.total
      && AreStored(fc, n, b.items, WrittenIds(fc, ts) + {id})
  {
    FileFacts(fc, n, j);
    hide ValidCopy, At, WrittenIds, IsFull, FileCopy.WriteAt;
  }

  /** The batch is written when file `j` was the last one missing, and is open with it otherwise. */
  lemma FileInjected(fc: FileCopy, st: NodeState, n: NodeID, j: nat, ts: seq<Tally>, us: seq<Tally>)
    requires ValidCopy(fc) && n != fc.sr.author && j < |fc.sr.evs| == |ts| == |us|
    requires !IsFull(fc, ts) && BatchFollows(fc, st, n, ts)
    requires WrittenIds(fc, us) == WrittenIds(fc, ts) + {fc.sr.evs[j].payload.id}
    ensures BatchFollows(fc, Injected(st, n, fc.sr.Arrived(n, j)), n, us)
  {
    hide ValidCopy, BatchFollows, WithItem, Complete, FileCopy.Stored, FileCopy.WriteAt, WrittenIds, Joined, At,
      AreStored;
    var b := WithItem(st.batches, fc.sr.Arrived(n, j).payload);
    WithFile(fc, st, n, j, ts);
    FileFacts(fc, n, j);
    StoredAre(fc, n, b.items, WrittenIds(fc, us));
    WrittenAreIds(fc, us);
    CompleteExactlyWhenAll(fc, b);
    WrittenAs(fc, n, j);
    if fc.total == 1 {
      InjectedAlone(fc, st, n, j, ts, us);
    } else if IsFull(fc, us) {
      AllStored(fc, n, b.items);
      BatchIsFull(fc, Injected(st, n, fc.sr.Arrived(n, j)), n, us);
    } else {
      BatchIsOpen(fc, Injected(st, n, fc.sr.Arrived(n, j)), n, us);
    }
  }

  lemma StoredAre(fc: FileCopy, n: NodeID, items: map<MessageID, Bytes>, ids: set<MessageID>)
    requires AreStored(fc, n, items, ids)
    ensures items.Keys == ids
  {
  }

  lemma AllStored(fc: FileCopy, n: NodeID, items: map<MessageID, Bytes>)
    requires AreStored(fc, n, items, fc.sr.Ids())
    ensures items == fc.Stored(n)
  {
  }

  lemma WrittenAs(fc: FileCopy, n: NodeID, j: nat)
    requires ValidCopy(fc) && j < |fc.sr.evs|
    ensures 1 <= fc.total
    ensures fc.total == 1 ==>
      && fc.sr.Ids() == {fc.sr.evs[j].payload.id} && |fc.sr.evs| == 1
      && fc.WriteAt(n) == Whole(fc.sr.Arrived(n, j).payload)
    ensures 2 <= |fc.sr.evs| ==> fc.WriteAt(n) == Batched(fc.batchID, MIME_PATH, Joined(fc.Stored(n)))
  {
    hide Joined, FileCopy.Stored, ValidSeries;
  }

  lemma InjectedAlone(fc: FileCopy, st: NodeState, n: NodeID, j: nat, ts: seq<Tally>, us: seq<Tally>)
    requires ValidCopy(fc) && n != fc.sr.author && j < |fc.sr.evs| == |ts| == |us| && fc.total == 1
    requires !IsFull(fc, ts) && BatchFollows(fc, st, n, ts)
    requires WrittenIds(fc, us) == WrittenIds(fc, ts) + {fc.sr.evs[j].payload.id}
    ensures BatchFollows(fc, Injected(st, n, fc.sr.Arrived(n, j)), n, us)
  {
    FileFacts(fc, n, j);
    WrittenAs(fc, n, j);
    WrittenAreIds(fc, ts);
    hide ValidCopy, FileCopy.WriteAt, WrittenIds, At, Series.Ids;
  }

  lemma BatchIsFull(fc: FileCopy, st: NodeState, n: NodeID, ts: seq<Tally>)
    requires |ts| == |fc.sr.evs| && IsFull(fc, ts)
    requires fc.batchID !in st.batches && st.clip == At(fc.sr.start, n).clip + [fc.WriteAt(n)]
    ensures BatchFollows(fc, st, n, ts)
  {
  }

  lemma BatchIsOpen(fc: FileCopy, st: NodeState, n: NodeID, ts: seq<Tally>)
    requires |ts| == |fc.sr.evs| && !IsFull(fc, ts) && WrittenIds(fc, ts) != {}
    requires st.clip == At(fc.sr.start, n).clip && fc.batchID in st.batches && st.batches[fc.batchID].total == fc.total
    requires AreStored(fc, n, st.batches[fc.batchID].items, WrittenIds(fc, ts))
    ensures BatchFollows(fc, st, n, ts)
  {
  }

  ghost predicate SameBatch(fc: FileCopy, a: NodeState, b: NodeState) {
    && a.clip == b.clip
    && (fc.batchID in a.batches <==> fc.batchID in b.batches)
    && (fc.batchID in a.batches ==> a.batches[fc.batchID] == b.batches[fc.batchID])
  }

  lemma SameBatchFollows(fc: FileCopy, a: NodeState, b: NodeState, n: NodeID, ts: seq<Tally>, us: seq<Tally>)
    requires |ts| == |us| == |fc.sr.evs| && WrittenIds(fc, ts) == WrittenIds(fc, us)
    requires BatchFollows(fc, a, n, ts) && SameBatch(fc, a, b)
    ensures BatchFollows(fc, b, n, us)
  {
    hide At, FileCopy.WriteAt, WrittenIds;
  }

  /** No step but the write of a file touches the batch at a node that the files fit. */
  lemma StepLeavesBatch(fc: FileCopy, s: State, c: nat, step: Step, n: NodeID, ts: seq<Tally>)
    requires ValidCopy(fc) && SourceFollows(fc.sr, s, c) && IsStepOf(fc.sr, s, step) && CanTake(fc, n)
    requires n != fc.sr.author
    requires ItemsFollow(fc.sr, s, c, n, ts) && (step.ExpireBatch? ==> step.bID != fc.batchID)
    requires forall i: nat :: i < |fc.sr.evs| ==> !Writes(fc.sr, step, n, i)
    ensures SameBatch(fc, At(s, n), At(Apply(fc.sr.cfg, s, step), n))
  {
    hide ValidSeries, HoldsTruly, IsCopy, ItemsFollow, At, CopyEvent, Announced, Requests, Sent, Accepts,
      IsAnnouncement, IsRequest, IsMessage, Intake, Injected, Collected, MessageHandled;
    hide AfterCopy, AfterDeliverAnnounce, AfterHandleAnnounce, AfterServeRequest, AfterDeliverMessage, AfterInject,
      AfterExpire;
    match step
    case Copy(m, u, id, now) => NodeAfterCopy(fc.sr.cfg, s, m, CopyEvent(m, u, id, now), n);
    case DeliverAnnounce(p) => NodeAfterDeliverAnnounce(s, p, n);
    case HandleAnnounce(t) =>
      NodeAfterHandleAnnounce(fc.sr.cfg, s, t, n);
      FittingIsNotRefused(fc, s, c, t, n);
    case ServeRequest(p, file) => NodeAfterServeRequest(s, p, file, n);
    case DeliverMessage(p, stored) =>
      NodeAfterDeliverMessage(fc.sr.cfg, s, p, stored, n);
      WelcomeIsNotRefused(fc, s, c, p, n, ts);
    case Inject(p) =>
      NodeAfterInject(fc.sr.cfg, s, p, n);
      forall i: nat | i < |fc.sr.evs| ensures p != fc.sr.ArrivedAt(n, i) {
        assert !Writes(fc.sr, step, n, i);
      }
    case ExpireBatch(m, bID) => NodeAfterExpire(s, m, bID, n);
  }

  lemma FittingIsNotRefused(fc: FileCopy, s: State, c: nat, t: Ticket, n: NodeID)
    requires ValidCopy(fc) && IsAnnouncement(fc.sr, c, t.ev) && CanTake(fc, n)
    ensures AnnounceHandled(At(s, n), fc.sr.cfg.Peers(n), fc.sr.cfg.Max(n), t.ev) == At(s, n)
  {
    var j :| 0 <= j < c && j < |fc.sr.evs| && t.ev == fc.sr.Announcement(j);
    FileFacts(fc, n, j);
    hide ValidCopy, At, Refused;
  }

  lemma WelcomeIsNotRefused(fc: FileCopy, s: State, c: nat, p: MsgPacket, n: NodeID, ts: seq<Tally>)
    requires ValidCopy(fc) && IsMessage(fc.sr, c, p) && ItemsFollow(fc.sr, s, c, n, ts) && p in s.msgs
    ensures p.dst == n ==>
      var st' := MessageHandled(At(s, n), fc.sr.cfg.Max(n), p.ev, p.raw, Some(fc.sr.store(n, p.ev.payload.id)));
      st'.batches == At(s, n).batches && st'.clip == At(s, n).clip
  {
    var j :| 0 <= j < c && j < |fc.sr.evs| && p == fc.sr.MessageTo(p.dst, j);
    if p.dst == n {
      assert ItemFollows(fc.sr, s, c, n, j, ts[j]);
      PassesAsArrived(fc.sr, At(s, n), n, j);
      WelcomeIsTakenIn(fc.sr, s, DeliverMessage(p, None), n, j);
      hide ValidCopy, At, Balanced, Refused, Accepts, Sent;
    }
  }

  /** What a step writes is counted. */
  lemma WrittenNext(fc: FileCopy, s: State, step: Step, n: NodeID, ts: seq<Tally>, j: nat)
    requires ValidCopy(fc) && |ts| == |fc.sr.evs| && j < |ts| && Writes(fc.sr, step, n, j)
    ensures WrittenIds(fc, AfterTallies(fc.sr, s, step, n, ts)) == WrittenIds(fc, ts) + {fc.sr.evs[j].payload.id}
  {
    hide AsksFor, Answers, Serves;
    forall i: nat | i < |ts| && i != j ensures !Writes(fc.sr, step, n, i) {
      TokensDiffer(fc.sr, n, i, j);
    }
    hide ValidCopy;
  }

  lemma WrittenStays(fc: FileCopy, s: State, step: Step, n: NodeID, ts: seq<Tally>)
    requires |ts| == |fc.sr.evs| && forall i: nat :: i < |ts| ==> !Writes(fc.sr, step, n, i)
    ensures WrittenIds(fc, AfterTallies(fc.sr, s, step, n, ts)) == WrittenIds(fc, ts)
  {
    hide AsksFor, Answers, Serves, Writes;
  }

  /** A file that is about to be written is not yet. */
  lemma MissingMeansNotFull(fc: FileCopy, s: State, c: nat, n: NodeID, ts: seq<Tally>, j: nat)
    requires ValidCopy(fc) && ItemsFollow(fc.sr, s, c, n, ts) && j < |fc.sr.evs| && 0 < s.pending[fc.sr.ArrivedAt(n, j)]
    ensures !IsFull(fc, ts)
  {
    assert ItemFollows(fc.sr, s, c, n, j, ts[j]);
    assert ts[j].written == 0;
    forall i: nat | i < |ts| && i != j ensures fc.sr.evs[i].payload.id != fc.sr.evs[j].payload.id {
      ItemsDiffer(fc.sr, i, j);
    }
    assert fc.sr.evs[j].payload.id !in WrittenIds(fc, ts) && fc.sr.evs[j].payload.id in fc.sr.Ids();
  }

  lemma StepBatch(fc: FileCopy, s: State, c: nat, step: Step, n: NodeID, ts: seq<Tally>)
    requires ValidCopy(fc) && SourceFollows(fc.sr, s, c) && IsStepOf(fc.sr, s, step) && CanTake(fc, n)
    requires n != fc.sr.author
    requires ItemsFollow(fc.sr, s, c, n, ts) && (step.ExpireBatch? ==> step.bID != fc.batchID)
    requires BatchFollows(fc, At(s, n), n, ts)
    ensures BatchFollows(fc, At(Apply(fc.sr.cfg, s, step), n), n, AfterTallies(fc.sr, s, step, n, ts))
  {
    hide ValidCopy, SourceFollows, GoesWell, Brings, CanTake, ItemFollows, At, BatchFollows, WrittenIds, IsFull,
      AfterTally, Injected, AfterInject;
    if j: nat :| j < |ts| && Writes(fc.sr, step, n, j) {
      NodeAfterInject(fc.sr.cfg, s, step.item, n);
      MissingMeansNotFull(fc, s, c, n, ts, j);
      WrittenNext(fc, s, step, n, ts, j);
      FileInjected(fc, At(s, n), n, j, ts, AfterTallies(fc.sr, s, step, n, ts));
    } else {
      hide Apply;
      StepLeavesBatch(fc, s, c, step, n, ts);
      WrittenStays(fc, s, step, n, ts);
      SameBatchFollows(fc, At(s, n), At(Apply(fc.sr.cfg, s, step), n), n, ts, AfterTallies(fc.sr, s, step, n, ts));
    }
  }

  lemma BatchStarts(fc: FileCopy, n: NodeID)
    requires ValidCopy(fc) && CanTake(fc, n)
    ensures BatchFollows(fc, At(fc.sr.start, n), n, NewTallies(fc.sr))
  {
    assert WrittenIds(fc, NewTallies(fc.sr)) == {};
    if fc.sr.evs != [] {
      assert fc.sr.evs[0].payload.id in fc.sr.Ids();
    }
    hide ValidSeries, At;
  }

  lemma {:induction false} RunBatch(fc: FileCopy, s: State, c: nat, n: NodeID, ts: seq<Tally>, steps: seq<Step>)
    requires ValidCopy(fc) && SourceFollows(fc.sr, s, c) && |fc.sr.evs| <= HISTORY_SIZE
    requires CanTake(fc, n) && n != fc.sr.author && PeerFollows(fc.sr, s, c, n, ts)
    requires |ts| == |fc.sr.evs| && BatchFollows(fc, At(s, n), n, ts)
    requires CanRun(fc.sr.cfg, s, steps) && CopiesInOrder(fc.sr, s, c, steps) && KeepsBatch(fc, steps)
    ensures BatchFollows(fc, At(Gossip.Run(fc.sr.cfg, s, steps), n), n, Tallies(fc.sr, s, n, ts, steps))
    decreases |steps|
  {
    hide ValidCopy, SourceFollows, CopiesInOrder, IsStepOf, Apply, Enabled, CanTake, FilterFollows, ItemsFollow,
      LastFollows, BatchFollows, AfterTallies, Brings, At;
    if steps != [] {
      var next, us := Apply(fc.sr.cfg, s, steps[0]), AfterTallies(fc.sr, s, steps[0], n, ts);
      assert steps[0] in steps && forall step :: step in steps[1..] ==> step in steps;
      FirstIsStepOf(fc.sr, s, c, steps);
      StepPeer(fc.sr, s, c, steps[0], n, ts);
      StepBatch(fc, s, c, steps[0], n, ts);
      if Brings(s, steps[0]) {
        OneMoreCopied(fc.sr, next, c, n, us);
      }
      RunBatch(fc, next, CopiedBy(s, steps[0], c), n, us, steps[1..]);
    }
  }

  // ---------------------------------------------------------------- up to five files are served while they are there

  /** A request of node `n` for message `i` is served when its file is gone. */
  predicate IsServedGone(sr: Series, n: NodeID, i: nat, steps: seq<Step>)
    requires i < |sr.evs|
  {
    exists step :: step in steps && Serves(sr, step, n, i) && step.file.None?
  }

  lemma ServedGoneFirstOrLater(sr: Series, n: NodeID, i: nat, steps: seq<Step>)
    requires i < |sr.evs| && steps != []
    ensures IsServedGone(sr, n, i, steps)
       <==> (Serves(sr, steps[0], n, i) && steps[0].file.None?) || IsServedGone(sr, n, i, steps[1..])
  {
    hide Serves;
    assert steps == [steps[0]] + steps[1..];
  }

  /** No more files than a history holds are refused just when they are gone. */
  lemma {:induction false} RunIsAnswered(fc: FileCopy, s: State, c: nat, n: NodeID, i: nat, ts: seq<Tally>,
                                         steps: seq<Step>)
    requires ValidCopy(fc) && SourceFollows(fc.sr, s, c) && AuthorServes(fc, s, c) && |fc.sr.evs| <= HISTORY_SIZE
    requires i < |fc.sr.evs| == |ts|
    requires CanRun(fc.sr.cfg, s, steps) && CopiesInOrder(fc.sr, s, c, steps)
    ensures Tallies(fc.sr, s, n, ts, steps)[i].refused >= ts[i].refused
    ensures Tallies(fc.sr, s, n, ts, steps)[i].refused == ts[i].refused <==> !IsServedGone(fc.sr, n, i, steps)
    decreases |steps|
  {
    hide ValidCopy, SourceFollows, AuthorServes, CopiesInOrder, IsStepOf, Apply, Enabled, Brings, AsksFor, Writes,
      Serves, Answers, IsServedGone;
    if steps == [] {
      NothingIsServedGone(fc.sr, n, i);
    } else {
      ServedGoneFirstOrLater(fc.sr, n, i, steps);
      FirstIsStepOf(fc.sr, s, c, steps);
      FirstServes(fc, s, c, steps);
      ServingRefuses(fc, s, c, steps[0], n, i, ts);
      RunIsAnswered(fc, Apply(fc.sr.cfg, s, steps[0]), CopiedBy(s, steps[0], c), n, i,
                    AfterTallies(fc.sr, s, steps[0], n, ts), steps[1..]);
    }
  }

  lemma NothingIsServedGone(sr: Series, n: NodeID, i: nat)
    requires i < |sr.evs|
    ensures !IsServedGone(sr, n, i, [])
  {
  }

  lemma ServingAnswers(fc: FileCopy, s: State, c: nat, step: Step, n: NodeID, i: nat)
    requires ValidCopy(fc) && SourceFollows(fc.sr, s, c) && AuthorServes(fc, s, c) && |fc.sr.evs| <= HISTORY_SIZE
    requires i < |fc.sr.evs| && Enabled(fc.sr.cfg, s, step)
    ensures Answers(fc.sr, s, step, n, i) <==> Serves(fc.sr, step, n, i) && step.file.Some?
  {
    assert IsFileOf(fc, fc.sr.evs[i]);
    forall j: nat | j < |fc.sr.evs| && j != i ensures fc.sr.RequestBy(n, i) != fc.sr.RequestBy(n, j) {
      TokensDiffer(fc.sr, n, i, j);
    }
    AuthorAnswersExactlyWhenRecent(fc, s, c, i);
    hide ValidCopy, HoldsTruly, AuthorServes, At, Lookup, IsAnnouncement, IsMessage, IsPending;
    if Serves(fc.sr, step, n, i) {
      assert IsRequest(fc.sr, c, step.req);
    }
  }

  lemma ServingRefuses(fc: FileCopy, s: State, c: nat, step: Step, n: NodeID, i: nat, ts: seq<Tally>)
    requires ValidCopy(fc) && SourceFollows(fc.sr, s, c) && AuthorServes(fc, s, c) && |fc.sr.evs| <= HISTORY_SIZE
    requires i < |fc.sr.evs| == |ts| && Enabled(fc.sr.cfg, s, step)
    ensures AfterTallies(fc.sr, s, step, n, ts)[i].refused
         == ts[i].refused + if Serves(fc.sr, step, n, i) && step.file.None? then 1 else 0
  {
    hide ValidCopy, SourceFollows, AuthorServes, AsksFor, Writes, Lookup, At;
    ServingAnswers(fc, s, c, step, n, i);
  }

  // ---------------------------------------------------------------- who has written the files at rest

  ghost predicate HasAskedForAll(fc: FileCopy, n: NodeID, steps: seq<Step>)
    requires CanRun(fc.sr.cfg, fc.sr.start, steps)
  {
    forall i :: 0 <= i < |fc.sr.evs| ==> Ledger(fc.sr, n, steps)[i].asked == 1
  }

  /** No request of node `n` for a file of the copy is served when the file is gone. */
  ghost predicate NoneIsServedGone(fc: FileCopy, n: NodeID, steps: seq<Step>) {
    forall i :: 0 <= i < |fc.sr.evs| ==> !IsServedGone(fc.sr, n, i, steps)
  }

  lemma FullExactlyWhenAllWritten(fc: FileCopy, ts: seq<Tally>)
    requires ValidCopy(fc) && |ts| == |fc.sr.evs|
    ensures IsFull(fc, ts) <==> |ts| == fc.total && forall i :: 0 <= i < |ts| ==> 0 < ts[i].written
  {
    forall i: nat, j: nat | i < |ts| && j < |ts| && i != j
      ensures fc.sr.evs[i].payload.id != fc.sr.evs[j].payload.id
    {
      ItemsDiffer(fc.sr, i, j);
    }
    forall i | 0 <= i < |ts| ensures fc.sr.evs[i].payload.id in WrittenIds(fc, ts) <==> 0 < ts[i].written {
    }
    forall i | 0 <= i < |ts| ensures fc.sr.evs[i].payload.id in fc.sr.Ids() {
    }
    hide ValidCopy;
  }

  /** A copy of no more files than a history holds: whatever its announce filter and its last message are, and however
      the steps fall out, at rest a direct peer that all files fit has written them, once and complete, if and only if
      each of them became a message, the peer has asked for each, and none was gone when its request was served. */
  lemma WrittenExactlyWhenAllAsked(fc: FileCopy, steps: seq<Step>, n: NodeID)
    requires ValidCopy(fc) && |fc.sr.evs| <= HISTORY_SIZE && CanTake(fc, n)
    requires CanRun(fc.sr.cfg, fc.sr.start, steps) && CopiesInOrder(fc.sr, fc.sr.start, 0, steps)
    requires KeepsBatch(fc, steps) && Quiescent(Gossip.Run(fc.sr.cfg, fc.sr.start, steps))
    ensures At(Gossip.Run(fc.sr.cfg, fc.sr.start, steps), n).clip == At(fc.sr.start, n).clip
      + if |fc.sr.evs| == fc.total && HasAskedForAll(fc, n, steps) && NoneIsServedGone(fc, n, steps)
        then [fc.WriteAt(n)] else []
  {
    hide ValidSeries, IsCopy, SourceFollows, AuthorServes, CopiesInOrder, PeerFollows, Quiescent, At, IsFull, Tallies,
      NewTallies, FileCopy.WriteAt, WrittenIds, Series.Fits, IsServedGone;
    WantsIsOther(fc.sr, n);
    SourceStarts(fc.sr);
    AuthorStarts(fc);
    PeerStarts(fc.sr, n);
    BatchStarts(fc, n);
    RunBatch(fc, fc.sr.start, 0, n, NewTallies(fc.sr), steps);
    var ts := Ledger(fc.sr, n, steps);
    forall i: nat | i < |ts|
      ensures ts[i].asked == 1 && !IsServedGone(fc.sr, n, i, steps) <==> 0 < ts[i].written
    {
      NewTalliesAre(fc.sr, i);
      WrittenAsAnswered(fc.sr, steps, n, i);
      RunIsAnswered(fc, fc.sr.start, 0, n, i, NewTallies(fc.sr), steps);
    }
    FullExactlyWhenAllWritten(fc, ts);
  }

  /** The filter of node `n` holds none of the contents, or keeps hold of one. */
  ghost predicate IsSettled(fc: FileCopy, n: NodeID) {
    fc.sr.IsNewTo(n) || exists i :: 0 <= i < |fc.sr.evs| && KeepsHold(fc.sr, n, i)
  }

  /** Files that are new to a peer, its last message none of them, are all written if they stay where they are. */
  lemma NewFilesArrive(fc: FileCopy, steps: seq<Step>, n: NodeID)
    requires ValidCopy(fc) && |fc.sr.evs| <= HISTORY_SIZE && CanTake(fc, n)
    requires fc.sr.IsNotLastOf(n) && fc.sr.IsNewTo(n)
    requires CanRun(fc.sr.cfg, fc.sr.start, steps) && CopiesInOrder(fc.sr, fc.sr.start, 0, steps)
    requires KeepsBatch(fc, steps) && Quiescent(Gossip.Run(fc.sr.cfg, fc.sr.start, steps))
    ensures At(Gossip.Run(fc.sr.cfg, fc.sr.start, steps), n).clip == At(fc.sr.start, n).clip
      + if |fc.sr.evs| == fc.total && NoneIsServedGone(fc, n, steps) then [fc.WriteAt(n)] else []
  {
    hide ValidSeries, IsCopy, CopiesInOrder, Quiescent, At, FileCopy.WriteAt, Ledger, Series.Fits, Series.IsNewTo,
      Series.IsNotLastOf, FileCopy.IsClosedAt, KeepsBatch, NoneIsServedGone;
    WrittenExactlyWhenAllAsked(fc, steps, n);
    forall i | 0 <= i < |fc.sr.evs| ensures Ledger(fc.sr, n, steps)[i].asked == 1 {
      WantingPeerAsks(fc.sr, steps, n, i);
    }
  }

  /** However the steps fall out, at rest a direct peer that all files fit, and whose last message is none of them, has
      written a copy of up to `HISTORY_SIZE` files if and only if each of them became a message, its announce filter
      held none of their contents when the copy was made, and none was gone when its request was served. */
  lemma FilesArriveExactlyWhenNew(fc: FileCopy, steps: seq<Step>, n: NodeID)
    requires ValidCopy(fc) && |fc.sr.evs| <= HISTORY_SIZE && CanTake(fc, n)
    requires fc.sr.IsNotLastOf(n) && IsSettled(fc, n)
    requires CanRun(fc.sr.cfg, fc.sr.start, steps) && CopiesInOrder(fc.sr, fc.sr.start, 0, steps)
    requires KeepsBatch(fc, steps) && Quiescent(Gossip.Run(fc.sr.cfg, fc.sr.start, steps))
    ensures At(Gossip.Run(fc.sr.cfg, fc.sr.start, steps), n).clip == At(fc.sr.start, n).clip
      + if |fc.sr.evs| == fc.total && fc.sr.IsNewTo(n) && NoneIsServedGone(fc, n, steps)
        then [fc.WriteAt(n)] else []
  {
    hide ValidSeries, IsCopy, CopiesInOrder, Quiescent, At, FileCopy.WriteAt, Series.Fits, Series.IsNewTo,
      Series.IsNotLastOf, FileCopy.IsClosedAt, KeepsBatch, KeepsHold, NoneIsServedGone;
    if fc.sr.IsNewTo(n) {
      NewFilesArrive(fc, steps, n);
    } else {
      var i :| 0 <= i < |fc.sr.evs| && KeepsHold(fc.sr, n, i);
      WantsIsOther(fc.sr, n);
      AllFit(fc.sr, n, i);
      HeldFileIsLost(fc, steps, n, i);
    }
  }

  lemma AllFit(sr: Series, n: NodeID, i: nat)
    requires sr.Fits(n) && i < |sr.evs|
    ensures sr.evs[i].payload.length <= sr.cfg.Max(n)
  {
  }

  /** A single file is written, whatever filter and last message, exactly if it became a message, the filter did not
      hold its content, it was not the last message already, and it was not gone when its request was served. */
  lemma OneFileArrivesExactlyWhenNew(fc: FileCopy, steps: seq<Step>, n: NodeID)
    requires ValidCopy(fc) && fc.total == 1 && CanTake(fc, n)
    requires CanRun(fc.sr.cfg, fc.sr.start, steps) && CopiesInOrder(fc.sr, fc.sr.start, 0, steps)
    requires KeepsBatch(fc, steps) && Quiescent(Gossip.Run(fc.sr.cfg, fc.sr.start, steps))
    ensures At(Gossip.Run(fc.sr.cfg, fc.sr.start, steps), n).clip == At(fc.sr.start, n).clip
      + if |fc.sr.evs| == 1 && fc.sr.IsNewTo(n) && fc.sr.IsNotLastOf(n) && NoneIsServedGone(fc, n, steps)
        then [fc.WriteAt(n)] else []
  {
    hide ValidSeries, CopiesInOrder, Quiescent, At, FileCopy.WriteAt, Series.IsNewTo, KeepsBatch, KeepsHold,
      IsNeverAnswered, SourceFollows, FileCopy.IsClosedAt, NoneIsServedGone;
    WantsIsOther(fc.sr, n);
    if |fc.sr.evs| == 0 {
      DroppedFileIsLost(fc, steps, n);
    } else if !fc.sr.IsNewTo(n) {
      SingleIsStuck(fc.sr, n);
      HeldFileIsLost(fc, steps, n, 0);
    } else if fc.sr.IsNotLastOf(n) {
      NewFilesArrive(fc, steps, n);
    } else {
      SourceStarts(fc.sr);
      StartIsQuiet(fc.sr);
      LastIsNeverAnswered(fc.sr, fc.sr.start, 0, n, steps);
      UnansweredFileIsLost(fc, steps, n, 0);
    }
  }

  /** If all files are copied before the first request is served, then at rest such a peer has written them if and only
      if they are no more than a history holds, each of them became a message, its announce filter held none of their
      contents, and none was gone when its request was served. */
  lemma FilesArriveExactlyWhenFew(fc: FileCopy, steps: seq<Step>, n: NodeID)
    requires ValidCopy(fc) && CanTake(fc, n) && fc.sr.IsNotLastOf(n) && IsSettled(fc, n)
    requires CanRun(fc.sr.cfg, fc.sr.start, steps) && CopiesInOrder(fc.sr, fc.sr.start, 0, steps)
    requires IsCopiedFirst(fc.sr, fc.sr.start, 0, steps)
    requires KeepsBatch(fc, steps) && Quiescent(Gossip.Run(fc.sr.cfg, fc.sr.start, steps))
    ensures At(Gossip.Run(fc.sr.cfg, fc.sr.start, steps), n).clip == At(fc.sr.start, n).clip
      + if |fc.sr.evs| <= HISTORY_SIZE && |fc.sr.evs| == fc.total && fc.sr.IsNewTo(n) && NoneIsServedGone(fc, n, steps)
        then [fc.WriteAt(n)] else []
  {
    hide ValidCopy, CopiesInOrder, Quiescent, IsCopiedFirst, At, FileCopy.WriteAt, IsSettled, Series.IsNewTo,
      Series.IsNotLastOf, NoneIsServedGone;
    if |fc.sr.evs| <= HISTORY_SIZE {
      FilesArriveExactlyWhenNew(fc, steps, n);
    } else {
      assert ValidSeries(fc.sr) by { CopyIsSeries(fc); }
      WantsIsOther(fc.sr, n);
      ManyFilesReachNobody(fc, steps, n);
    }
  }

  lemma CopyIsSeries(fc: FileCopy)
    requires ValidCopy(fc)
    ensures ValidSeries(fc.sr)
  {
  }

  // ---------------------------------------------------------------- in any mesh that ran before

  /** A complete copy of few files with contents new to all, made at rest in any mesh that ran before: its gossip dies
      out after a bounded number of steps, and then each direct peer of the author that they fit, and that holds none of
      them, has written them if none was gone when its request was served, and no other node has. */
  lemma FreshFilesReachEveryPeer(past: seq<Step>, fc: FileCopy, steps: seq<Step>)
    requires ValidConfig(fc.sr.cfg) && CanRun(fc.sr.cfg, Initial(fc.sr.cfg), past)
    requires fc.sr.start == Gossip.Run(fc.sr.cfg, Initial(fc.sr.cfg), past) && Quiescent(fc.sr.start)
    requires IsSeries(fc.sr) && IsCopy(fc) && IsFresh(fc.sr) && |fc.sr.evs| == fc.total <= HISTORY_SIZE
    requires CanRun(fc.sr.cfg, fc.sr.start, steps) && CopiesInOrder(fc.sr, fc.sr.start, 0, steps)
    requires KeepsBatch(fc, steps)
    ensures TrafficIn(steps)
         <= (|fc.sr.cfg.nodes| + 3) * (|fc.sr.cfg.nodes| * |fc.sr.evs|) + |fc.sr.cfg.nodes| * |fc.sr.evs|
    ensures
      var end := Gossip.Run(fc.sr.cfg, fc.sr.start, steps);
      Quiescent(end) ==> forall n ::
        && (CanTake(fc, n) && fc.sr.IsNotLastOf(n) ==>
              At(end, n).clip == At(fc.sr.start, n).clip
                + if NoneIsServedGone(fc, n, steps) then [fc.WriteAt(n)] else [])
        && (n !in fc.sr.cfg.Peers(fc.sr.author) ==> At(end, n).clip == At(fc.sr.start, n).clip)
  {
    hide CanRun, IsSeries, ValidConfig, CanTake, FileCopy.WriteAt, CopiesInOrder, At, Series.IsNotLastOf,
      Series.IsNewTo, Quiescent, IsCopy, KeepsBatch, Inv, ValidFilters, NoneIsServedGone;
    RestIsAStart(past, fc.sr);
    SeriesTraffic(fc.sr, steps);
    var end := Gossip.Run(fc.sr.cfg, fc.sr.start, steps);
    hide ValidSeries;
    assert ValidCopy(fc);
    if Quiescent(end) {
      forall n | CanTake(fc, n) && fc.sr.IsNotLastOf(n)
        ensures At(end, n).clip == At(fc.sr.start, n).clip
          + if NoneIsServedGone(fc, n, steps) then [fc.WriteAt(n)] else []
      {
        assert fc.sr.IsNewTo(n);
        NewFilesArrive(fc, steps, n);
      }
      forall n | n !in fc.sr.cfg.Peers(fc.sr.author) ensures At(end, n).clip == At(fc.sr.start, n).clip {
        OnlyPeersWrite(fc.sr, steps, n);
      }
    }
  }
}
