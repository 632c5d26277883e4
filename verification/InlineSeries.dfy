/** Several texts or images copied one after the other at one node: what the others have written of them when the mesh
    is quiet again. */
module InlineSeries {
  import opened Wrappers
  import opened Domain
  import opened Channel
  import opened History
  import opened Node
  import opened Gossip
  import opened GossipTermination
  import opened CopySeries
  import opened SeriesFlow
  import opened SeriesAsks

  /** A series of inline messages outside any batch. */
  ghost predicate ValidInline(sr: Series) {
    ValidSeries(sr)
    && forall i :: 0 <= i < |sr.evs| ==> !IsPath(sr.evs[i].payload.mime) && !IsBatched(sr.evs[i].payload)
  }

  // ---------------------------------------------------------------- the author answers for its last copy only

  ghost predicate HoldsLast(sr: Series, s: State, c: nat)
    requires c <= |sr.evs|
  {
    var chan := At(s, sr.author).chan;
    && chan.last == (if c == 0 then At(sr.start, sr.author).chan.last else sr.evs[c - 1])
    && chan.served == At(sr.start, sr.author).chan.served
  }

  /** With `c` messages copied, the author answers a request for message `i` exactly if it was the last of them. */
  lemma AuthorAnswersExactlyForLast(sr: Series, s: State, c: nat, i: nat)
    requires ValidInline(sr) && c <= |sr.evs| && HoldsLast(sr, s, c) && i < |sr.evs|
    ensures Lookup(At(s, sr.author).chan, sr.evs[i].payload.id) == if i + 1 == c then Some(sr.evs[i]) else None
  {
    IdsAreNew(sr, sr.author, i);
    if 0 < c && c - 1 != i {
      ItemsDiffer(sr, c - 1, i);
    }
    hide ValidSeries, At;
  }

  lemma NextCopyIsLast(sr: Series, s: State, c: nat)
    requires ValidInline(sr) && c < |sr.evs| && HoldsLast(sr, s, c) && CopyPasses(At(s, sr.author), sr.evs[c])
    ensures HoldsLast(sr, AfterCopy(sr.cfg, s, sr.author, sr.evs[c]), c + 1)
  {
    hide At, ValidSeries;
    NodeAfterCopy(sr.cfg, s, sr.author, sr.evs[c], sr.author);
  }

  lemma FirstHoldsLast(sr: Series, s: State, c: nat, steps: seq<Step>)
    requires ValidInline(sr) && SourceFollows(sr, s, c) && HoldsLast(sr, s, c)
    requires CanRun(sr.cfg, s, steps) && steps != [] && CopiesInOrder(sr, s, c, steps)
    ensures SourceFollows(sr, Apply(sr.cfg, s, steps[0]), CopiedBy(s, steps[0], c))
    ensures HoldsLast(sr, Apply(sr.cfg, s, steps[0]), CopiedBy(s, steps[0], c))
  {
    hide ValidInline, HoldsTruly, TrafficFollows, At, CopyPasses, CopyEvent, AfterCopy, AfterDeliverAnnounce,
      AfterHandleAnnounce, AfterServeRequest, AfterDeliverMessage, AfterInject, AfterExpire;
    FirstIsStepOf(sr, s, c, steps);
    if Brings(s, steps[0]) {
      NextCopyIsLast(sr, s, c);
    } else {
      StepLeavesAuthor(sr, s, c, steps[0]);
    }
  }

  /** Whoever asks for the last message is answered. */
  lemma ServingLastAnswers(sr: Series, s: State, c: nat, step: Step, n: NodeID, i: nat)
    requires ValidInline(sr) && SourceFollows(sr, s, c) && HoldsLast(sr, s, c) && i + 1 == |sr.evs|
    requires Enabled(sr.cfg, s, step)
    ensures Serves(sr, step, n, i) ==> Answers(sr, s, step, n, i)
  {
    AuthorAnswersExactlyForLast(sr, s, c, i);
    forall j: nat | j < |sr.evs| && j != i ensures sr.RequestBy(n, i) != sr.RequestBy(n, j) {
      TokensDiffer(sr, n, i, j);
    }
    hide ValidInline, ValidSeries, HoldsTruly, HoldsLast, At, Lookup, IsAnnouncement, IsMessage, IsPending;
    if Serves(sr, step, n, i) {
      assert IsRequest(sr, c, step.req);
    }
  }

  lemma {:induction false} LastIsNotRefused(sr: Series, s: State, c: nat, n: NodeID, i: nat, ts: seq<Tally>,
                                            steps: seq<Step>)
    requires ValidInline(sr) && SourceFollows(sr, s, c) && HoldsLast(sr, s, c) && i + 1 == |sr.evs| == |ts|
    requires CanRun(sr.cfg, s, steps) && CopiesInOrder(sr, s, c, steps)
    ensures Tallies(sr, s, n, ts, steps)[i].refused == ts[i].refused
    decreases |steps|
  {
    hide ValidInline, SourceFollows, HoldsLast, CopiesInOrder, IsStepOf, Apply, Enabled, Brings, AsksFor, Writes;
    if steps != [] {
      FirstIsStepOf(sr, s, c, steps);
      FirstHoldsLast(sr, s, c, steps);
      ServingLastAnswers(sr, s, c, steps[0], n, i);
      LastIsNotRefused(sr, Apply(sr.cfg, s, steps[0]), CopiedBy(s, steps[0], c), n, i,
                       AfterTallies(sr, s, steps[0], n, ts), steps[1..]);
    }
  }

  // ---------------------------------------------------------------- the clipboard of one node

  ghost predicate AreItems(sr: Series, order: seq<nat>) {
    Distinct(order) && forall i :: i in order ==> i < |sr.evs|
  }

  /** The writes of these messages at node `n`, in this order. */
  ghost function WritesOf(sr: Series, n: NodeID, order: seq<nat>): seq<ClipWrite>
    requires AreItems(sr, order)
  {
    seq(|order|, k requires 0 <= k < |order| => WriteOf(sr, n, order[k]))
  }

  ghost function WriteOf(sr: Series, n: NodeID, i: nat): ClipWrite {
    if i < |sr.evs| then Whole(sr.Arrived(n, i).payload) else Whole(ZERO_MESSAGE)
  }

  /** Node `n` has written, in this order and each once, just the messages that its ledger says. */
  ghost predicate HasWritten(sr: Series, st: NodeState, n: NodeID, ts: seq<Tally>, order: seq<nat>)
    requires |ts| == |sr.evs|
  {
    && AreItems(sr, order) && st.clip == At(sr.start, n).clip + WritesOf(sr, n, order)
    && forall i: nat :: i < |ts| ==> (i in order <==> 0 < ts[i].written)
  }

  lemma ItemIsWritten(sr: Series, st: NodeState, n: NodeID, i: nat)
    requires ValidInline(sr) && n != sr.author && i < |sr.evs|
    ensures Injected(st, n, sr.Arrived(n, i)).clip == st.clip + [WriteOf(sr, n, i)]
  {
    ItemFacts(sr, n, i);
    hide ValidSeries;
  }

  lemma WritesMore(sr: Series, n: NodeID, order: seq<nat>, j: nat)
    requires AreItems(sr, order) && j < |sr.evs| && j !in order
    ensures AreItems(sr, order + [j]) && WritesOf(sr, n, order + [j]) == WritesOf(sr, n, order) + [WriteOf(sr, n, j)]
  {
    hide WriteOf;
  }

  lemma WrittenNext(sr: Series, s: State, step: Step, n: NodeID, ts: seq<Tally>, i: nat)
    requires |ts| == |sr.evs| && i < |ts|
    ensures AfterTallies(sr, s, step, n, ts)[i].written == ts[i].written + Num(Writes(sr, step, n, i))
  {
    hide AsksFor, Answers, Serves, Writes;
  }

  lemma StepWrites(sr: Series, s: State, c: nat, step: Step, n: NodeID, ts: seq<Tally>, order: seq<nat>)
    returns (next: seq<nat>)
    requires ValidInline(sr) && SourceFollows(sr, s, c) && IsStepOf(sr, s, step) && n != sr.author
    requires ItemsFollow(sr, s, c, n, ts) && HasWritten(sr, At(s, n), n, ts, order)
    ensures HasWritten(sr, At(Apply(sr.cfg, s, step), n), n, AfterTallies(sr, s, step, n, ts), next)
  {
    hide ValidInline, SourceFollows, GoesWell, Brings, At, ItemFollows, AreItems, WritesOf, AfterTallies, Writes,
      WriteOf;
    next := order;
    forall i: nat | i < |ts|
      ensures AfterTallies(sr, s, step, n, ts)[i].written == ts[i].written + Num(Writes(sr, step, n, i))
    {
      WrittenNext(sr, s, step, n, ts, i);
    }
    if j: nat :| j < |ts| && Writes(sr, step, n, j) {
      WritesOnce(sr, s, c, step, n, ts, j);
      WritesMore(sr, n, order, j);
      WritesIs(sr, s, step, n, j);
      ItemIsWritten(sr, At(s, n), n, j);
      next := order + [j];
      OthersAreNotWritten(sr, s, c, step, n, j);
    } else {
      hide Apply;
      StepLeavesClip(sr, s, c, step, n);
    }
  }

  lemma WritesIs(sr: Series, s: State, step: Step, n: NodeID, j: nat)
    requires j < |sr.evs| && Enabled(sr.cfg, s, step) && Writes(sr, step, n, j)
    ensures At(Apply(sr.cfg, s, step), n) == Injected(At(s, n), n, sr.Arrived(n, j))
  {
    hide At, Injected, AfterInject;
    NodeAfterInject(sr.cfg, s, step.item, n);
  }

  lemma WritesOnce(sr: Series, s: State, c: nat, step: Step, n: NodeID, ts: seq<Tally>, j: nat)
    requires ItemsFollow(sr, s, c, n, ts) && j < |ts| && Enabled(sr.cfg, s, step) && Writes(sr, step, n, j)
    ensures ts[j].written == 0
  {
    hide At, IsWelcome, Heard;
    assert ItemFollows(sr, s, c, n, j, ts[j]);
  }

  lemma OthersAreNotWritten(sr: Series, s: State, c: nat, step: Step, n: NodeID, j: nat)
    requires SourceFollows(sr, s, c) && j < |sr.evs| && Writes(sr, step, n, j)
    ensures forall i: nat :: i < |sr.evs| && i != j ==> !Writes(sr, step, n, i)
  {
    forall i: nat | i < |sr.evs| && i != j ensures !Writes(sr, step, n, i) {
      TokensDiffer(sr, n, i, j);
    }
  }

  lemma {:induction false} RunWrites(sr: Series, s: State, c: nat, n: NodeID, ts: seq<Tally>, steps: seq<Step>,
                                     order: seq<nat>)
    returns (end: seq<nat>)
    requires ValidInline(sr) && SourceFollows(sr, s, c) && |sr.evs| <= HISTORY_SIZE && n != sr.author
    requires PeerFollows(sr, s, c, n, ts) && |ts| == |sr.evs| && HasWritten(sr, At(s, n), n, ts, order)
    requires CanRun(sr.cfg, s, steps) && CopiesInOrder(sr, s, c, steps)
    ensures HasWritten(sr, At(Gossip.Run(sr.cfg, s, steps), n), n, Tallies(sr, s, n, ts, steps), end)
    decreases |steps|
  {
    hide ValidInline, SourceFollows, CopiesInOrder, IsStepOf, Apply, Enabled, FilterFollows, ItemsFollow, LastFollows,
      HasWritten, AfterTallies, Brings, At;
    end := order;
    if steps != [] {
      var next, us := Apply(sr.cfg, s, steps[0]), AfterTallies(sr, s, steps[0], n, ts);
      FirstIsStepOf(sr, s, c, steps);
      StepPeer(sr, s, c, steps[0], n, ts);
      var more := StepWrites(sr, s, c, steps[0], n, ts, order);
      if Brings(s, steps[0]) {
        OneMoreCopied(sr, next, c, n, us);
      }
      end := RunWrites(sr, next, CopiedBy(s, steps[0], c), n, us, steps[1..], more);
    }
  }

  lemma NothingIsWritten(sr: Series, n: NodeID)
    ensures HasWritten(sr, At(sr.start, n), n, NewTallies(sr), [])
  {
    assert At(sr.start, n).clip + WritesOf(sr, n, []) == At(sr.start, n).clip;
    hide At;
  }

  /** Of up to `HISTORY_SIZE` inline copies of different contents at one node, at rest every other node has written
      just those that it asked for and was answered, each of them once. */
  lemma EachIsWrittenAsAnswered(sr: Series, steps: seq<Step>, n: NodeID) returns (order: seq<nat>)
    requires ValidInline(sr) && |sr.evs| <= HISTORY_SIZE && n != sr.author
    requires CanRun(sr.cfg, sr.start, steps) && CopiesInOrder(sr, sr.start, 0, steps)
    requires Quiescent(Gossip.Run(sr.cfg, sr.start, steps))
    ensures AreItems(sr, order)
    ensures At(Gossip.Run(sr.cfg, sr.start, steps), n).clip == At(sr.start, n).clip + WritesOf(sr, n, order)
    ensures forall i: nat :: i < |sr.evs| ==> (i in order <==> Ledger(sr, n, steps)[i].answered == 1)
  {
    hide ValidSeries, SourceFollows, CopiesInOrder, PeerFollows, Quiescent, At, Tallies, NewTallies, WritesOf, AreItems;
    SourceStarts(sr);
    PeerStarts(sr, n);
    NothingIsWritten(sr, n);
    order := RunWrites(sr, sr.start, 0, n, NewTallies(sr), steps, []);
    forall i: nat | i < |sr.evs| ensures i in order <==> Ledger(sr, n, steps)[i].answered == 1 {
      WrittenAsAnswered(sr, steps, n, i);
    }
  }

  /** Each direct peer that the contents are new to, and that is large enough for them, has written the last copy once,
      and each earlier one at most once; no node that is not a peer of the author has written any. */
  lemma LastCopyReachesEveryPeer(sr: Series, steps: seq<Step>, n: NodeID) returns (order: seq<nat>)
    requires ValidInline(sr) && 1 <= |sr.evs| <= HISTORY_SIZE
    requires CanRun(sr.cfg, sr.start, steps) && CopiesInOrder(sr, sr.start, 0, steps)
    requires Quiescent(Gossip.Run(sr.cfg, sr.start, steps))
    ensures AreItems(sr, order)
    ensures At(Gossip.Run(sr.cfg, sr.start, steps), n).clip == At(sr.start, n).clip + WritesOf(sr, n, order)
    ensures Wants(sr, n) ==> |sr.evs| - 1 in order
    ensures n !in sr.cfg.Peers(sr.author) ==> order == []
  {
    hide ValidSeries, SourceFollows, CopiesInOrder, HoldsLast, Quiescent, At, Tallies, NewTallies, WritesOf,
      Series.Fits, Series.IsNewTo, Series.IsNotLastOf;
    order := [];
    if n !in sr.cfg.Peers(sr.author) {
      OnlyPeersWrite(sr, steps, n);
      NoWrites(sr, n);
    } else {
      WantsIsOther(sr, n);
      order := EachIsWrittenAsAnswered(sr, steps, n);
      if Wants(sr, n) {
        var i := |sr.evs| - 1;
        SourceStarts(sr);
        StartHoldsLast(sr);
        LastIsNotRefused(sr, sr.start, 0, n, i, NewTallies(sr), steps);
        NewTalliesAre(sr, i);
        WantingPeerAsks(sr, steps, n, i);
        WrittenAsAnswered(sr, steps, n, i);
      }
    }
  }

  lemma StartHoldsLast(sr: Series)
    ensures HoldsLast(sr, sr.start, 0)
  {
  }

  lemma NoWrites(sr: Series, n: NodeID)
    ensures AreItems(sr, []) && forall clip: seq<ClipWrite> :: clip + WritesOf(sr, n, []) == clip
  {
  }
}
