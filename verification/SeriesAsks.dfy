/** Who asks for the messages of a series: the direct peers that they are new to and that are large enough for them,
    no node whose announce filter keeps hold of their content, and no node that is not a peer of the author. */
module SeriesAsks {
  import opened Wrappers
  import opened Collections
  import opened Machine
  import opened Domain
  import opened Channel
  import opened History
  import opened Node
  import opened Gossip
  import opened GossipSafety
  import opened GossipTermination
  import opened CopySeries
  import opened SeriesFlow

  // ---------------------------------------------------------------- a peer that wants everything

  /** A direct peer that is large enough for every message, and whose last message is none of them. */
  ghost predicate CanAsk(sr: Series, n: NodeID) {
    n in sr.cfg.Peers(sr.author) && sr.Fits(n) && sr.IsNotLastOf(n)
  }

  /** Such a peer that has let none of the contents through. */
  ghost predicate Wants(sr: Series, n: NodeID) {
    CanAsk(sr, n) && sr.IsNewTo(n)
  }

  /** What the filter holds of these contents it has let through in this series. */
  ghost predicate IsClean(sr: Series, st: NodeState) {
    forall i :: 0 <= i < |sr.evs| && sr.evs[i].payload.hash in st.chan.announced.data ==> Heard(sr, st, i)
  }

  /** Node `n` has heard of message `i`, is being told of it, or is about to be. */
  ghost predicate IsTold(sr: Series, s: State, n: NodeID, i: nat)
    requires i < |sr.evs|
  {
    || Heard(sr, At(s, n), i)
    || AnnPacket(sr.author, n, sr.Announcement(i)) in s.anns
    || Pending(sr.author, sr.evs[i]) in s.pending
  }

  /** Whatever the node has heard of it has asked for, or is about to. */
  ghost predicate AsksForAll(sr: Series, s: State, n: NodeID, ts: seq<Tally>)
    requires |ts| == |sr.evs|
  {
    forall i :: 0 <= i < |sr.evs| ==> s.tickets[sr.TicketAt(n, i)] + ts[i].asked == Num(Heard(sr, At(s, n), i))
  }

  ghost predicate IsToldAll(sr: Series, s: State, c: nat, n: NodeID) {
    forall i :: 0 <= i < c && i < |sr.evs| ==> IsTold(sr, s, n, i)
  }

  ghost predicate WantsFollows(sr: Series, s: State, c: nat, n: NodeID, ts: seq<Tally>) {
    |ts| == |sr.evs| && IsClean(sr, At(s, n)) && IsToldAll(sr, s, c, n) && AsksForAll(sr, s, n, ts)
  }

  lemma WantsFacts(sr: Series, n: NodeID, i: nat)
    requires ValidSeries(sr) && CanAsk(sr, n) && i < |sr.evs|
    ensures n != sr.author && sr.author in sr.cfg.Peers(n) && sr.evs[i].payload.length <= sr.cfg.Max(n)
    ensures sr.evs[i].payload.hash != At(sr.start, n).chan.last.payload.hash
  {
    AuthorIsNoPeer(sr);
  }

  lemma WantsIsOther(sr: Series, n: NodeID)
    requires ValidSeries(sr) && n in sr.cfg.Peers(sr.author)
    ensures n != sr.author
  {
    AuthorIsNoPeer(sr);
  }

  /** A wanting peer asks for a message when it handles its announce. */
  lemma WantingAsks(sr: Series, s: State, c: nat, step: Step, n: NodeID, ts: seq<Tally>, i: nat)
    requires ValidSeries(sr) && CanAsk(sr, n) && PeerFollows(sr, s, c, n, ts) && Enabled(sr.cfg, s, step)
    requires i < |sr.evs|
    ensures Handles(sr, step, n, i) <==> AsksFor(sr, s, step, n, i)
  {
    hide ValidSeries, CanAsk, At, FilterFollows, IsWelcome, Heard;
    if Handles(sr, step, n, i) {
      assert ItemFollows(sr, s, c, n, i, ts[i]);
      WantsFacts(sr, n, i);
      ItemFacts(sr, n, i);
      var last := At(s, n).chan.last;
      if last == At(sr.start, n).chan.last {
        IdsAreNew(sr, n, i);
      } else {
        var j :| 0 <= j < |sr.evs| && last == sr.Arrived(n, j) && 0 < s.pending[sr.ArrivedAt(n, j)] + ts[j].written;
        assert ItemFollows(sr, s, c, n, j, ts[j]);
        ItemFacts(sr, n, j);
        ItemsDiffer(sr, i, j);
      }
    }
  }

  lemma StepAsksFor(sr: Series, s: State, c: nat, step: Step, n: NodeID, ts: seq<Tally>, i: nat)
    requires SourceFollows(sr, s, c) && IsStepOf(sr, s, step) && |sr.evs| <= HISTORY_SIZE && CanAsk(sr, n)
    requires n != sr.author
    requires PeerFollows(sr, s, c, n, ts) && i < |sr.evs|
    requires s.tickets[sr.TicketAt(n, i)] + ts[i].asked == Num(Heard(sr, At(s, n), i))
    ensures
      var t := Apply(sr.cfg, s, step);
      t.tickets[sr.TicketAt(n, i)] + AfterTally(sr, s, step, n, i, ts[i]).asked == Num(Heard(sr, At(t, n), i))
  {
    hide SourceFollows, GoesWell, Brings, Enabled, Apply, At, ValidSeries, CanAsk, PeerFollows, Heard, AsksFor,
      LetsThrough, Handles, Answers, Serves, Delivers, TakesIn, Writes;
    IsValidSeries(sr, s, c);
    StepMoves(sr, s, c, step, n, i);
    StepFilterOf(sr, s, c, step, n, ts, i);
    WantingAsks(sr, s, c, step, n, ts, i);
  }

  lemma IsValidSeries(sr: Series, s: State, c: nat)
    requires SourceFollows(sr, s, c)
    ensures ValidSeries(sr) && c <= |sr.evs|
  {
  }

  lemma StepAsksForAll(sr: Series, s: State, c: nat, step: Step, n: NodeID, ts: seq<Tally>)
    requires SourceFollows(sr, s, c) && IsStepOf(sr, s, step) && |sr.evs| <= HISTORY_SIZE && CanAsk(sr, n)
    requires n != sr.author
    requires PeerFollows(sr, s, c, n, ts) && |ts| == |sr.evs| && AsksForAll(sr, s, n, ts)
    ensures AsksForAll(sr, Apply(sr.cfg, s, step), n, AfterTallies(sr, s, step, n, ts))
  {
    hide SourceFollows, GoesWell, Brings, Enabled, Apply, At, CanAsk, PeerFollows, Heard, AfterTally;
    forall i: nat | i < |sr.evs|
      ensures Apply(sr.cfg, s, step).tickets[sr.TicketAt(n, i)] + AfterTally(sr, s, step, n, i, ts[i]).asked
           == Num(Heard(sr, At(Apply(sr.cfg, s, step), n), i))
    {
      StepAsksFor(sr, s, c, step, n, ts, i);
    }
  }

  lemma StepFilterOf(sr: Series, s: State, c: nat, step: Step, n: NodeID, ts: seq<Tally>, i: nat)
    requires SourceFollows(sr, s, c) && IsStepOf(sr, s, step) && |sr.evs| <= HISTORY_SIZE && n != sr.author
    requires PeerFollows(sr, s, c, n, ts) && i < |sr.evs|
    ensures
      var t := Apply(sr.cfg, s, step);
      && (Heard(sr, At(t, n), i) <==> Heard(sr, At(s, n), i) || LetsThrough(sr, s, step, n, i))
      && (LetsThrough(sr, s, step, n, i) ==> !Heard(sr, At(s, n), i))
  {
    hide SourceFollows, IsStepOf, Apply, At, FilterFollows, LastFollows, ItemsFollow;
    StepFilter(sr, s, c, step, n);
  }

  lemma CleanLearns(sr: Series, st: NodeState, j: nat)
    requires ValidSeries(sr) && j < |sr.evs| && IsClean(sr, st)
    ensures IsClean(sr, st.(chan := Announced(st.chan, sr.Announcement(j))))
  {
    ItemFacts(sr, 0, j);
    forall i: nat | i < |sr.evs| && i != j ensures sr.evs[i].payload.hash != sr.evs[j].payload.hash {
      ItemsDiffer(sr, i, j);
    }
    hide ValidSeries;
  }

  lemma SameClean(sr: Series, a: NodeState, b: NodeState)
    requires a.chan.announced == b.chan.announced && IsClean(sr, a)
    ensures IsClean(sr, b)
  {
  }

  /** A clean filter stays clean. */
  lemma StepStaysClean(sr: Series, s: State, c: nat, step: Step, n: NodeID)
    requires SourceFollows(sr, s, c) && IsStepOf(sr, s, step) && n != sr.author && IsClean(sr, At(s, n))
    ensures IsClean(sr, At(Apply(sr.cfg, s, step), n))
  {
    hide SourceFollows, ValidSeries, GoesWell, Brings, Enabled, Apply, At, IsClean, Announced;
    IsValidSeries(sr, s, c);
    StepChannel(sr, s, c, step, n);
    var st, st' := At(s, n), At(Apply(sr.cfg, s, step), n);
    if step.DeliverAnnounce? && step.ann.dst == n {
      AnnounceIsItem(sr, s, c, step.ann);
      var j :| 0 <= j < c && j < |sr.evs| && step.ann.ev == sr.Announcement(j);
      CleanLearns(sr, st, j);
      SameClean(sr, st.(chan := Announced(st.chan, step.ann.ev)), st');
    } else {
      SameClean(sr, st, st');
    }
  }

  /** What a step leaves of the announces and the pending writes. */
  lemma StepLeaves(cfg: Config, s: State, step: Step)
    requires Enabled(cfg, s, step)
    ensures
      var t := Apply(cfg, s, step);
      && s.anns - (if step.DeliverAnnounce? then multiset{step.ann} else multiset{}) <= t.anns
      && s.pending - (if step.Inject? then multiset{step.item} else multiset{}) <= t.pending
  {
    hide At, Announced, IsNews, AnnounceHandled, Requests, Answer, Accepted, MessageHandled, Injected, Announcements,
      CopyEvent, Copied, CopyPasses;
  }

  lemma StepTells(sr: Series, s: State, c: nat, step: Step, n: NodeID, ts: seq<Tally>, i: nat)
    requires SourceFollows(sr, s, c) && IsStepOf(sr, s, step) && |sr.evs| <= HISTORY_SIZE
    requires n in sr.cfg.Peers(sr.author) && n != sr.author && IsClean(sr, At(s, n))
    requires PeerFollows(sr, s, c, n, ts) && i < |sr.evs| && IsTold(sr, s, n, i)
    ensures IsTold(sr, Apply(sr.cfg, s, step), n, i)
  {
    hide SourceFollows, ValidSeries, PeerFollows, At, Heard, GoesWell, Brings, Enabled, Apply, IsClean, LetsThrough;
    IsValidSeries(sr, s, c);
    StepFilterOf(sr, s, c, step, n, ts, i);
    StepLeaves(sr.cfg, s, step);
    if step == DeliverAnnounce(AnnPacket(sr.author, n, sr.Announcement(i))) {
      DeliveredIsHeard(sr, s, step.ann, n, i);
    } else if step == Inject(Pending(sr.author, sr.evs[i])) {
      AuthorTells(sr, s, n, i);
      InjectIs(sr.cfg, s, step);
    }
  }

  lemma InjectIs(cfg: Config, s: State, step: Step)
    requires Enabled(cfg, s, step) && step.Inject?
    ensures Apply(cfg, s, step) == AfterInject(cfg, s, step.item)
  {
    hide AfterInject;
  }

  lemma DeliveredIsHeard(sr: Series, s: State, p: AnnPacket, n: NodeID, i: nat)
    requires ValidSeries(sr) && i < |sr.evs| && p == AnnPacket(sr.author, n, sr.Announcement(i))
    requires IsClean(sr, At(s, n))
    ensures Heard(sr, At(s, n), i) || LetsThrough(sr, s, DeliverAnnounce(p), n, i)
  {
    ItemFacts(sr, n, i);
    hide ValidSeries, At;
  }

  lemma AuthorTells(sr: Series, s: State, n: NodeID, i: nat)
    requires ValidSeries(sr) && i < |sr.evs| && n in sr.cfg.Peers(sr.author) && n != sr.author
    ensures AnnPacket(sr.author, n, sr.Announcement(i))
      in AfterInject(sr.cfg, s, Pending(sr.author, sr.evs[i])).anns
  {
    ItemFacts(sr, n, i);
    hide ValidSeries, Injected;
    var ev := sr.evs[i];
    assert n in sr.cfg.Peers(sr.author) - {ev.from};
    assert AnnPacket(sr.author, n, sr.Announcement(i)) in Announcements(sr.cfg, sr.author, ev);
    hide Announcements;
  }

  lemma StepWants(sr: Series, s: State, c: nat, step: Step, n: NodeID, ts: seq<Tally>)
    requires SourceFollows(sr, s, c) && IsStepOf(sr, s, step) && |sr.evs| <= HISTORY_SIZE && CanAsk(sr, n)
    requires PeerFollows(sr, s, c, n, ts) && WantsFollows(sr, s, c, n, ts)
    ensures WantsFollows(sr, Apply(sr.cfg, s, step), c, n, AfterTallies(sr, s, step, n, ts))
  {
    hide SourceFollows, GoesWell, Brings, Enabled, Apply, At, ValidSeries, PeerFollows, IsTold, IsClean, AsksForAll,
      AfterTally, Series.Fits, Series.IsNotLastOf;
    IsValidSeries(sr, s, c);
    WantsIsOther(sr, n);
    StepStaysClean(sr, s, c, step, n);
    StepAsksForAll(sr, s, c, step, n, ts);
    forall i | 0 <= i < c && i < |sr.evs| ensures IsTold(sr, Apply(sr.cfg, s, step), n, i) {
      StepTells(sr, s, c, step, n, ts, i);
    }
  }

  /** A copy that passes its node is about to be told. */
  lemma NextIsTold(sr: Series, s: State, c: nat, step: Step, n: NodeID)
    requires c < |sr.evs| && Enabled(sr.cfg, s, step) && Brings(s, step) && step.n == sr.author
    requires CopyEvent(step.n, step.u, step.id, step.now) == sr.evs[c] && IsToldAll(sr, Apply(sr.cfg, s, step), c, n)
    ensures IsToldAll(sr, Apply(sr.cfg, s, step), c + 1, n)
  {
    hide At, CopyPasses, CopyEvent, Copied, Heard;
    assert Pending(sr.author, sr.evs[c]) in Apply(sr.cfg, s, step).pending;
  }

  lemma NextCopyIs(sr: Series, s: State, c: nat, steps: seq<Step>)
    requires CanRun(sr.cfg, s, steps) && steps != [] && CopiesInOrder(sr, s, c, steps) && Brings(s, steps[0])
    ensures c < |sr.evs| && steps[0].n == sr.author
    ensures CopyEvent(steps[0].n, steps[0].u, steps[0].id, steps[0].now) == sr.evs[c]
  {
    hide CopyEvent, CopyPasses;
  }

  lemma {:induction false} RunWants(sr: Series, s: State, c: nat, n: NodeID, ts: seq<Tally>, steps: seq<Step>)
    requires SourceFollows(sr, s, c) && |sr.evs| <= HISTORY_SIZE && CanAsk(sr, n)
    requires PeerFollows(sr, s, c, n, ts) && WantsFollows(sr, s, c, n, ts)
    requires CanRun(sr.cfg, s, steps) && CopiesInOrder(sr, s, c, steps)
    ensures WantsFollows(sr, Gossip.Run(sr.cfg, s, steps), |sr.evs|, n, Tallies(sr, s, n, ts, steps))
    decreases |steps|
  {
    hide SourceFollows, CopiesInOrder, IsStepOf, Apply, Enabled, PeerFollows, IsClean, IsToldAll, AsksForAll,
      AfterTallies, Brings, ValidSeries, Series.Fits, Series.IsNotLastOf;
    IsValidSeries(sr, s, c);
    WantsIsOther(sr, n);
    if steps != [] {
      var next, us := Apply(sr.cfg, s, steps[0]), AfterTallies(sr, s, steps[0], n, ts);
      FirstIsStepOf(sr, s, c, steps);
      StepPeer(sr, s, c, steps[0], n, ts);
      StepWants(sr, s, c, steps[0], n, ts);
      if Brings(s, steps[0]) {
        OnlyCopiesBring(s, steps[0]);
        NextCopyIs(sr, s, c, steps);
        NextIsTold(sr, s, c, steps[0], n);
        OneMoreCopied(sr, next, c, n, us);
      }
      RunWants(sr, next, CopiedBy(s, steps[0], c), n, us, steps[1..]);
    } else {
      NoneLeft(sr, s, c);
    }
  }

  lemma WantsStarts(sr: Series, n: NodeID)
    requires ValidSeries(sr) && Wants(sr, n)
    ensures WantsFollows(sr, sr.start, 0, n, NewTallies(sr))
  {
    StartIsQuiet(sr);
    PeerStarts(sr, n);
    hide ValidSeries, PeerFollows, At, Heard;
  }

  /** At rest a direct peer that the messages are new to, and that is large enough for them, has asked for each of up
      to `HISTORY_SIZE` messages just once. */
  lemma WantingPeerAsks(sr: Series, steps: seq<Step>, n: NodeID, i: nat)
    requires ValidSeries(sr) && |sr.evs| <= HISTORY_SIZE && Wants(sr, n) && i < |sr.evs|
    requires CanRun(sr.cfg, sr.start, steps) && CopiesInOrder(sr, sr.start, 0, steps)
    requires Quiescent(Gossip.Run(sr.cfg, sr.start, steps))
    ensures Ledger(sr, n, steps)[i].asked == 1
  {
    hide ValidSeries, SourceFollows, CopiesInOrder, PeerFollows, CanAsk, At, Tallies, Heard;
    WantsFacts(sr, n, i);
    SourceStarts(sr);
    PeerStarts(sr, n);
    WantsStarts(sr, n);
    RunWants(sr, sr.start, 0, n, NewTallies(sr), steps);
    assert IsTold(sr, Gossip.Run(sr.cfg, sr.start, steps), n, i);
  }

  // ---------------------------------------------------------------- a filter that keeps hold of a content

  /** The contents that may yet be let in behind the key at `p`. */
  ghost function Ahead(order: seq<Uint64>, contents: set<Uint64>, p: nat): set<Uint64>
    requires p < |order|
  {
    set h | h in contents && h != order[p] && h !in order[p + 1..]
  }

  /** The history holds `h`, with so many places in front of it that these contents can not push it out. */
  ghost predicate IsStuck(order: seq<Uint64>, contents: set<Uint64>, h: Uint64) {
    exists p :: 0 <= p < |order| && order[p] == h && |Ahead(order, contents, p)| + |order| <= HISTORY_SIZE + p
  }

  /** Letting one of the contents in leaves a stuck one in its place. */
  lemma StuckStays(f: Fifo<Uint64, EventAnnounce>, contents: set<Uint64>, h: Uint64, key: Uint64, ann: EventAnnounce)
    requires ValidFifo(f, HISTORY_SIZE) && IsStuck(f.order, contents, h) && key in contents
    ensures h in f.data && IsStuck(Added(f, HISTORY_SIZE, key, ann).order, contents, h)
  {
    hide Ahead, Aged;
    var p :| 0 <= p < |f.order| && f.order[p] == h && |Ahead(f.order, contents, p)| + |f.order| <= HISTORY_SIZE + p;
    assert h in f.order;
    if key !in f.data {
      var order := Added(f, HISTORY_SIZE, key, ann).order;
      NewIsAhead(f, contents, p, key);
      var q: nat := if HISTORY_SIZE <= |f.order| then p - 1 else p;
      AheadShrinks(f.order, order, contents, p, q, key);
      assert |Ahead(order, contents, q)| == |Ahead(f.order, contents, p)| - 1;
    }
  }

  lemma NewIsAhead(f: Fifo<Uint64, EventAnnounce>, contents: set<Uint64>, p: nat, key: Uint64)
    requires ValidFifo(f, HISTORY_SIZE) && p < |f.order| && key in contents && key !in f.data
    ensures key in Ahead(f.order, contents, p)
    ensures 1 <= |Ahead(f.order, contents, p)|
  {
    assert f.order[p] in f.order;
    forall x | x in f.order[p + 1..] ensures x in f.order {
    }
    assert {key} <= Ahead(f.order, contents, p);
    SubsetSize({key}, Ahead(f.order, contents, p));
  }

  lemma AheadShrinks(order: seq<Uint64>, after: seq<Uint64>, contents: set<Uint64>, p: nat, q: nat, key: Uint64)
    requires p < |order| && q < |after| && after[q..] == order[p..] + [key]
    ensures after[q] == order[p] && Ahead(after, contents, q) == Ahead(order, contents, p) - {key}
  {
    assert after[q] == after[q..][0] == order[p];
    assert after[q + 1..] == after[q..][1..] == order[p + 1..] + [key];
  }

  /** The filter of node `n` keeps hold of the content of message `i` from before the series on. */
  ghost predicate KeepsHold(sr: Series, n: NodeID, i: nat)
    requires i < |sr.evs|
  {
    IsStuck(At(sr.start, n).chan.announced.order, sr.Hashes(), sr.evs[i].payload.hash)
  }

  /** If only contents of a series are newer than `h`, it is stuck. */
  lemma AgedIsStuck(f: Fifo<Uint64, EventAnnounce>, contents: set<Uint64>, h: Uint64)
    requires ValidFifo(f, HISTORY_SIZE) && Aged(f.order, contents) && |contents| <= HISTORY_SIZE
    requires h in contents && h in f.data
    ensures IsStuck(f.order, contents, h)
  {
    var p: nat :| p < |f.order| && f.order[p] == h;
    var behind := f.order[p..];
    BehindIsAged(f, contents, p);
    CountElements(behind);
    AheadIsRest(f.order, contents, p);
    SubsetSize((set x | x in behind), contents);
  }

  lemma BehindIsAged(f: Fifo<Uint64, EventAnnounce>, contents: set<Uint64>, p: nat)
    requires ValidFifo(f, HISTORY_SIZE) && Aged(f.order, contents) && p < |f.order| && f.order[p] in contents
    ensures Distinct(f.order[p..]) && forall x :: x in f.order[p..] ==> x in contents
  {
    var behind := f.order[p..];
    forall x | x in behind ensures x in contents {
      var k :| 0 <= k < |behind| && behind[k] == x;
      assert f.order[p + k] == x;
    }
  }

  lemma AheadIsRest(order: seq<Uint64>, contents: set<Uint64>, p: nat)
    requires p < |order|
    ensures Ahead(order, contents, p) == contents - (set x | x in order[p..])
  {
    assert order[p..] == [order[p]] + order[p + 1..];
  }

  /** The filter of node `n` keeps hold of the content of message `i`, and no ticket or request for it is left. */
  ghost predicate IsHeldBack(sr: Series, s: State, n: NodeID, i: nat)
    requires i < |sr.evs|
  {
    && ValidFifo(At(s, n).chan.announced, HISTORY_SIZE)
    && IsStuck(At(s, n).chan.announced.order, sr.Hashes(), sr.evs[i].payload.hash)
    && s.tickets[sr.TicketAt(n, i)] == 0 && s.reqs[sr.RequestBy(n, i)] == 0
  }

  lemma StuckIsNoNews(sr: Series, st: NodeState, i: nat)
    requires ValidSeries(sr) && i < |sr.evs| && ValidFifo(st.chan.announced, HISTORY_SIZE)
    requires IsStuck(st.chan.announced.order, sr.Hashes(), sr.evs[i].payload.hash)
    ensures !IsNews(st.chan, sr.Announcement(i))
  {
    ItemFacts(sr, 0, i);
    hide ValidSeries;
  }

  lemma FilterStaysStuck(sr: Series, st: NodeState, i: nat, j: nat)
    requires ValidSeries(sr) && i < |sr.evs| && j < |sr.evs| && ValidFifo(st.chan.announced, HISTORY_SIZE)
    requires IsStuck(st.chan.announced.order, sr.Hashes(), sr.evs[i].payload.hash)
    ensures
      var f := Announced(st.chan, sr.Announcement(j)).announced;
      ValidFifo(f, HISTORY_SIZE) && IsStuck(f.order, sr.Hashes(), sr.evs[i].payload.hash)
  {
    hide ValidSeries, Added, Series.Hashes;
    ItemFacts(sr, 0, j);
    HashCount(sr);
    AddedIsValid(st.chan.announced, HISTORY_SIZE, sr.evs[j].payload.hash, sr.Announcement(j));
    StuckStays(st.chan.announced, sr.Hashes(), sr.evs[i].payload.hash, sr.evs[j].payload.hash, sr.Announcement(j));
  }

  lemma StepHoldsBack(sr: Series, s: State, c: nat, step: Step, n: NodeID, i: nat)
    requires SourceFollows(sr, s, c) && IsStepOf(sr, s, step) && n != sr.author && i < |sr.evs|
    requires IsHeldBack(sr, s, n, i)
    ensures IsHeldBack(sr, Apply(sr.cfg, s, step), n, i)
    ensures !AsksFor(sr, s, step, n, i) && !Answers(sr, s, step, n, i)
  {
    hide SourceFollows, ValidSeries, GoesWell, Brings, Enabled, Apply, At, Announced, IsNews, ValidFifo, IsStuck,
      AsksFor, Delivers, TakesIn, Writes;
    IsValidSeries(sr, s, c);
    StepMoves(sr, s, c, step, n, i);
    StepChannel(sr, s, c, step, n);
    StuckIsNoNews(sr, At(s, n), i);
    AskingIsHandling(sr, s, step, n, i);
    if step.DeliverAnnounce? && step.ann.dst == n {
      AnnounceIsItem(sr, s, c, step.ann);
      var j :| 0 <= j < c && j < |sr.evs| && step.ann.ev == sr.Announcement(j);
      FilterStaysStuck(sr, At(s, n), i, j);
    }
  }

  // ---------------------------------------------------------------- requests that are never answered

  /** In this run no request of node `n` for message `i` is answered. */
  ghost predicate IsNeverAnswered(sr: Series, s: State, n: NodeID, i: nat, steps: seq<Step>)
    requires CanRun(sr.cfg, s, steps) && i < |sr.evs|
    decreases |steps|
  {
    steps == []
    || (!Answers(sr, s, steps[0], n, i) && IsNeverAnswered(sr, Apply(sr.cfg, s, steps[0]), n, i, steps[1..]))
  }

  /** A content that the filter keeps hold of is never asked for, and so never answered. */
  lemma {:induction false} HeldIsNeverAnswered(sr: Series, s: State, c: nat, n: NodeID, i: nat, steps: seq<Step>)
    requires SourceFollows(sr, s, c) && n != sr.author && i < |sr.evs| && IsHeldBack(sr, s, n, i)
    requires CanRun(sr.cfg, s, steps) && CopiesInOrder(sr, s, c, steps)
    ensures IsNeverAnswered(sr, s, n, i, steps)
    decreases |steps|
  {
    hide SourceFollows, CopiesInOrder, IsStepOf, Apply, Enabled, IsHeldBack, Answers, Brings;
    if steps != [] {
      FirstIsStepOf(sr, s, c, steps);
      StepHoldsBack(sr, s, c, steps[0], n, i);
      HeldIsNeverAnswered(sr, Apply(sr.cfg, s, steps[0]), CopiedBy(s, steps[0], c), n, i, steps[1..]);
    }
  }

  /** No answer in one run and none in the next is none in both. */
  lemma {:induction false} NeverAnsweredJoin(sr: Series, s: State, n: NodeID, i: nat, first: seq<Step>, rest: seq<Step>)
    requires i < |sr.evs| && CanRun(sr.cfg, s, first) && IsNeverAnswered(sr, s, n, i, first)
    requires CanRun(sr.cfg, Gossip.Run(sr.cfg, s, first), rest)
    requires IsNeverAnswered(sr, Gossip.Run(sr.cfg, s, first), n, i, rest)
    ensures CanRun(sr.cfg, s, first + rest) && IsNeverAnswered(sr, s, n, i, first + rest)
    decreases |first|
  {
    hide Apply, Enabled, Answers;
    if first == [] {
      assert first + rest == rest;
    } else {
      assert (first + rest)[0] == first[0] && (first + rest)[1..] == first[1..] + rest;
      NeverAnsweredJoin(sr, Apply(sr.cfg, s, first[0]), n, i, first[1..], rest);
    }
  }

  /** Of a single message: the last message of node `n` has its content, and the node neither has asked for it nor is
      being sent it. */
  ghost predicate IsLastAlready(sr: Series, s: State, n: NodeID)
    requires |sr.evs| == 1
  {
    && At(s, n).chan.last.payload.hash == sr.evs[0].payload.hash
    && s.reqs[sr.RequestBy(n, 0)] == 0 && s.msgs[sr.MessageTo(n, 0)] == 0
  }

  lemma StepLeavesLast(sr: Series, s: State, c: nat, step: Step, n: NodeID)
    requires SourceFollows(sr, s, c) && IsStepOf(sr, s, step) && n != sr.author && |sr.evs| == 1
    requires IsLastAlready(sr, s, n)
    ensures IsLastAlready(sr, Apply(sr.cfg, s, step), n) && !Answers(sr, s, step, n, 0)
  {
    hide SourceFollows, ValidSeries, GoesWell, Brings, Enabled, Apply, At, AsksFor, Handles, LetsThrough, Accepts,
      Lookup;
    IsValidSeries(sr, s, c);
    StepMoves(sr, s, c, step, n, 0);
    StepChannel(sr, s, c, step, n);
    if AsksFor(sr, s, step, n, 0) {
      AskedIsWelcome(sr, s, step, n, 0);
    }
  }

  /** A single message that is the last of a node already is never asked for. */
  lemma {:induction false} LastIsNeverAnswered(sr: Series, s: State, c: nat, n: NodeID, steps: seq<Step>)
    requires SourceFollows(sr, s, c) && n != sr.author && |sr.evs| == 1 && IsLastAlready(sr, s, n)
    requires CanRun(sr.cfg, s, steps) && CopiesInOrder(sr, s, c, steps)
    ensures IsNeverAnswered(sr, s, n, 0, steps)
    decreases |steps|
  {
    hide SourceFollows, CopiesInOrder, IsStepOf, Apply, Enabled, IsLastAlready, Answers, Brings;
    if steps != [] {
      FirstIsStepOf(sr, s, c, steps);
      StepLeavesLast(sr, s, c, steps[0], n);
      LastIsNeverAnswered(sr, Apply(sr.cfg, s, steps[0]), CopiedBy(s, steps[0], c), n, steps[1..]);
    }
  }

  /** A filter keeps hold of a single content that it holds. */
  lemma SingleIsStuck(sr: Series, n: NodeID)
    requires ValidSeries(sr) && |sr.evs| == 1 && !sr.IsNewTo(n)
    ensures KeepsHold(sr, n, 0)
  {
    FilterIsValid(sr, n);
    var order, h := At(sr.start, n).chan.announced.order, sr.evs[0].payload.hash;
    var p :| 0 <= p < |order| && order[p] == h;
    assert sr.Hashes() == {h};
    assert Ahead(order, sr.Hashes(), p) == {};
    hide ValidSeries;
  }

  // ---------------------------------------------------------------- a message that is out of the traffic

  /** The message `id` has been copied, and nothing in flight is about it. */
  ghost predicate IsGone(s: State, id: MessageID) {
    && id in s.published
    && (forall p :: p in s.anns ==> p.ev.payload.id != id)
    && (forall t :: t in s.tickets ==> t.ev.payload.id != id)
    && (forall p :: p in s.reqs ==> p.id != id)
    && (forall p :: p in s.msgs ==> p.ev.payload.id != id)
    && (forall p :: p in s.pending ==> p.ev.payload.id != id)
  }

  lemma AnswerIsAbout(c: Chan, p: ReqPacket, file: Option<Bytes>)
    ensures Answer(c, p, file).Some? ==> Answer(c, p, file).value.ev.payload.id == p.id
  {
  }

  lemma AcceptedIsAbout(st: NodeState, maxSize: Uint64, p: MsgPacket, stored: Option<Bytes>)
    ensures Accepted(st, maxSize, p, stored).Some? ==>
      Accepted(st, maxSize, p, stored).value.ev.payload.id == p.ev.payload.id
  {
  }

  lemma AnnouncementsAreAbout(cfg: Config, n: NodeID, ev: EventMessage)
    ensures forall p :: p in Announcements(cfg, n, ev) ==> p.ev.payload.id == ev.payload.id
  {
  }

  lemma CopyStaysGone(cfg: Config, s: State, n: NodeID, ev: EventMessage, id: MessageID)
    requires IsGone(s, id) && ev.payload.id != id
    ensures IsGone(AfterCopy(cfg, s, n, ev), id)
  {
    hide At, Copied, CopyPasses, IsNewCopy;
  }

  lemma HearingStaysGone(s: State, p: AnnPacket, id: MessageID)
    requires IsGone(s, id) && p in s.anns
    ensures IsGone(AfterDeliverAnnounce(s, p), id)
  {
    hide At, Announced, IsNews;
  }

  lemma AskingStaysGone(cfg: Config, s: State, t: Ticket, id: MessageID)
    requires IsGone(s, id) && t in s.tickets
    ensures IsGone(AfterHandleAnnounce(cfg, s, t), id)
  {
    hide At, AnnounceHandled, Requests;
  }

  lemma ServingStaysGone(s: State, p: ReqPacket, file: Option<Bytes>, id: MessageID)
    requires IsGone(s, id) && p in s.reqs
    ensures IsGone(AfterServeRequest(s, p, file), id)
  {
    AnswerIsAbout(At(s, p.dst).chan, p, file);
    hide At, Answer;
  }

  lemma TakingStaysGone(cfg: Config, s: State, p: MsgPacket, stored: Option<Bytes>, id: MessageID)
    requires IsGone(s, id) && p in s.msgs
    ensures IsGone(AfterDeliverMessage(cfg, s, p, stored), id)
  {
    AcceptedIsAbout(At(s, p.dst), cfg.Max(p.dst), p, stored);
    hide At, Accepted, MessageHandled;
  }

  lemma WritingStaysGone(cfg: Config, s: State, i: Pending, id: MessageID)
    requires IsGone(s, id) && i in s.pending
    ensures IsGone(AfterInject(cfg, s, i), id)
  {
    AnnouncementsAreAbout(cfg, i.node, i.ev);
    hide At, Injected, Announcements;
  }

  /** What is gone does not come back. */
  lemma StepStaysGone(cfg: Config, s: State, step: Step, id: MessageID)
    requires IsGone(s, id) && Enabled(cfg, s, step)
    ensures IsGone(Apply(cfg, s, step), id)
  {
    assert id in s.published;
    hide IsGone, AfterCopy, AfterDeliverAnnounce, AfterHandleAnnounce, AfterServeRequest, AfterDeliverMessage,
      AfterInject;
    match step
    case Copy(n, u, newID, now) => CopyStaysGone(cfg, s, n, CopyEvent(n, u, newID, now), id);
    case DeliverAnnounce(p) => HearingStaysGone(s, p, id);
    case HandleAnnounce(t) => AskingStaysGone(cfg, s, t, id);
    case ServeRequest(p, file) => ServingStaysGone(s, p, file, id);
    case DeliverMessage(p, stored) => TakingStaysGone(cfg, s, p, stored, id);
    case Inject(i) => WritingStaysGone(cfg, s, i, id);
    case ExpireBatch(n, bID) => ExpiringStaysGone(s, n, bID, id);
  }

  lemma ExpiringStaysGone(s: State, n: NodeID, bID: MessageID, id: MessageID)
    requires IsGone(s, id)
    ensures IsGone(AfterExpire(s, n, bID), id)
  {
    hide At;
  }

  lemma {:induction false} GoneIsNeverAnswered(sr: Series, s: State, n: NodeID, i: nat, steps: seq<Step>)
    requires i < |sr.evs| && CanRun(sr.cfg, s, steps) && IsGone(s, sr.evs[i].payload.id)
    ensures IsNeverAnswered(sr, s, n, i, steps)
    decreases |steps|
  {
    hide Apply, At, Lookup;
    if steps != [] {
      StepStaysGone(sr.cfg, s, steps[0], sr.evs[i].payload.id);
      GoneIsNeverAnswered(sr, Apply(sr.cfg, s, steps[0]), n, i, steps[1..]);
    }
  }

  // ---------------------------------------------------------------- nodes that are no peers of the author

  /** Nothing of the series is on its way into node `n`, and nothing has been written there. */
  ghost predicate IsUntouched(sr: Series, s: State, n: NodeID) {
    && At(s, n).clip == At(sr.start, n).clip
    && forall i :: 0 <= i < |sr.evs| ==> IsFree(sr, s, n, i)
  }

  ghost predicate IsFree(sr: Series, s: State, n: NodeID, i: nat)
    requires i < |sr.evs|
  {
    s.reqs[sr.RequestBy(n, i)] == 0 && s.msgs[sr.MessageTo(n, i)] == 0 && s.pending[sr.ArrivedAt(n, i)] == 0
  }

  lemma StrangerNeverAsks(sr: Series, s: State, step: Step, n: NodeID, i: nat)
    requires ValidSeries(sr) && n !in sr.cfg.Peers(sr.author) && i < |sr.evs|
    ensures !AsksFor(sr, s, step, n, i)
  {
    AuthorIsNoPeer(sr);
    ItemFacts(sr, n, i);
  }

  lemma StepLeavesFree(sr: Series, s: State, c: nat, step: Step, n: NodeID, i: nat)
    requires SourceFollows(sr, s, c) && IsStepOf(sr, s, step) && n != sr.author && n !in sr.cfg.Peers(sr.author)
    requires i < |sr.evs| && IsFree(sr, s, n, i)
    ensures IsFree(sr, Apply(sr.cfg, s, step), n, i) && !Writes(sr, step, n, i)
  {
    hide SourceFollows, ValidSeries, GoesWell, Brings, Enabled, Apply, AsksFor, LetsThrough, Handles, Accepts, Lookup;
    IsValidSeries(sr, s, c);
    StepMoves(sr, s, c, step, n, i);
    StrangerNeverAsks(sr, s, step, n, i);
  }

  /** Where no message of the series is written, and none refused, the clipboard stays. */
  lemma StepLeavesClip(sr: Series, s: State, c: nat, step: Step, n: NodeID)
    requires SourceFollows(sr, s, c) && IsStepOf(sr, s, step) && n != sr.author
    requires forall i: nat :: i < |sr.evs| ==> !Writes(sr, step, n, i)
    ensures At(Apply(sr.cfg, s, step), n).clip == At(s, n).clip
  {
    hide ValidSeries, HoldsTruly, At, CopyEvent, Announced, Requests, Sent, Accepts, IsAnnouncement, IsRequest,
      IsMessage, Intake, Injected, Batch.Collected;
    hide AfterCopy, AfterDeliverAnnounce, AfterHandleAnnounce, AfterServeRequest, AfterDeliverMessage, AfterInject,
      AfterExpire;
    match step
    case Copy(m, u, id, now) => NodeAfterCopy(sr.cfg, s, m, CopyEvent(m, u, id, now), n);
    case DeliverAnnounce(p) => NodeAfterDeliverAnnounce(s, p, n);
    case HandleAnnounce(t) => NodeAfterHandleAnnounce(sr.cfg, s, t, n);
    case ServeRequest(p, file) => NodeAfterServeRequest(s, p, file, n);
    case DeliverMessage(p, stored) => NodeAfterDeliverMessage(sr.cfg, s, p, stored, n);
    case Inject(p) =>
      NodeAfterInject(sr.cfg, s, p, n);
      forall i: nat | i < |sr.evs| ensures p != sr.ArrivedAt(n, i) {
        assert !Writes(sr, step, n, i);
      }
    case ExpireBatch(m, bID) => NodeAfterExpire(s, m, bID, n);
  }

  lemma StepLeavesUntouched(sr: Series, s: State, c: nat, step: Step, n: NodeID)
    requires SourceFollows(sr, s, c) && IsStepOf(sr, s, step) && n != sr.author && n !in sr.cfg.Peers(sr.author)
    requires IsUntouched(sr, s, n)
    ensures IsUntouched(sr, Apply(sr.cfg, s, step), n)
  {
    hide SourceFollows, GoesWell, Brings, Enabled, Apply, At, IsFree, Writes;
    forall i: nat | i < |sr.evs| ensures IsFree(sr, Apply(sr.cfg, s, step), n, i) && !Writes(sr, step, n, i) {
      StepLeavesFree(sr, s, c, step, n, i);
    }
    StepLeavesClip(sr, s, c, step, n);
  }

  lemma {:induction false} RunLeavesUntouched(sr: Series, s: State, c: nat, n: NodeID, steps: seq<Step>)
    requires SourceFollows(sr, s, c) && n != sr.author && n !in sr.cfg.Peers(sr.author) && IsUntouched(sr, s, n)
    requires CanRun(sr.cfg, s, steps) && CopiesInOrder(sr, s, c, steps)
    ensures IsUntouched(sr, Gossip.Run(sr.cfg, s, steps), n)
    decreases |steps|
  {
    hide SourceFollows, CopiesInOrder, IsStepOf, Apply, Enabled, IsUntouched, Brings;
    if steps != [] {
      FirstIsStepOf(sr, s, c, steps);
      StepLeavesUntouched(sr, s, c, steps[0], n);
      RunLeavesUntouched(sr, Apply(sr.cfg, s, steps[0]), CopiedBy(s, steps[0], c), n, steps[1..]);
    }
  }

  lemma {:induction false} RunLeavesAuthor(sr: Series, s: State, c: nat, steps: seq<Step>)
    requires SourceFollows(sr, s, c) && CanRun(sr.cfg, s, steps) && CopiesInOrder(sr, s, c, steps)
    ensures At(Gossip.Run(sr.cfg, s, steps), sr.author).clip == At(s, sr.author).clip
    decreases |steps|
  {
    hide SourceFollows, CopiesInOrder, Apply, Enabled, Brings, GoesWell, At;
    if steps != [] {
      FirstIsStepOf(sr, s, c, steps);
      FirstLeavesAuthor(sr, s, c, steps[0]);
      RunLeavesAuthor(sr, Apply(sr.cfg, s, steps[0]), CopiedBy(s, steps[0], c), steps[1..]);
    }
  }

  lemma FirstLeavesAuthor(sr: Series, s: State, c: nat, step: Step)
    requires SourceFollows(sr, s, c) && IsStepOf(sr, s, step)
    ensures At(Apply(sr.cfg, s, step), sr.author).clip == At(s, sr.author).clip
  {
    hide ValidSeries, HoldsTruly, TrafficFollows, At, AfterCopy, CopyEvent, CopyPasses, GoesWell, Sent;
    if step.Copy? {
      NodeAfterCopy(sr.cfg, s, step.n, CopyEvent(step.n, step.u, step.id, step.now), sr.author);
    } else {
      OnlyCopiesBring(s, step);
      StepLeavesAuthor(sr, s, c, step);
    }
  }

  /** Copies are written at direct peers of their author only. */
  lemma OnlyPeersWrite(sr: Series, steps: seq<Step>, n: NodeID)
    requires ValidSeries(sr) && n !in sr.cfg.Peers(sr.author)
    requires CanRun(sr.cfg, sr.start, steps) && CopiesInOrder(sr, sr.start, 0, steps)
    ensures At(Gossip.Run(sr.cfg, sr.start, steps), n).clip == At(sr.start, n).clip
  {
    hide SourceFollows, CopiesInOrder, At;
    SourceStarts(sr);
    StartIsQuiet(sr);
    hide ValidSeries;
    if n == sr.author {
      RunLeavesAuthor(sr, sr.start, 0, steps);
    } else {
      RunLeavesUntouched(sr, sr.start, 0, n, steps);
    }
  }

  // ---------------------------------------------------------------- how much traffic there is

  lemma FilterIsValid(sr: Series, n: NodeID)
    requires ValidSeries(sr)
    ensures ValidFifo(At(sr.start, n).chan.announced, HISTORY_SIZE)
  {
  }

  /** No node has let any of the contents through. */
  ghost predicate IsFresh(sr: Series) {
    forall n :: sr.IsNewTo(n)
  }

  lemma FreshIsTame(sr: Series)
    requires ValidSeries(sr) && IsFresh(sr)
    ensures TameNodes(sr.Hashes(), sr.start.nodes)
  {
    forall n | n in sr.start.nodes
      ensures ValidFifo(sr.start.nodes[n].chan.announced, HISTORY_SIZE)
      ensures Aged(sr.start.nodes[n].chan.announced.order, sr.Hashes())
    {
      var f := At(sr.start, n).chan.announced;
      FilterIsValid(sr, n);
      assert sr.IsNewTo(n);
      forall x | 0 <= x < |f.order| ensures f.order[x] !in sr.Hashes() {
        assert f.order[x] in f.order;
      }
    }
  }

  lemma CopyBringsHash(sr: Series, step: Step, c: nat)
    requires c < |sr.evs| && step.Copy? && |step.u.data| < TWO64
    requires CopyEvent(step.n, step.u, step.id, step.now) == sr.evs[c]
    ensures step.u.hash in sr.Hashes()
  {
  }

  lemma {:induction false} CopiesAreItems(sr: Series, s: State, c: nat, steps: seq<Step>)
    requires c <= |sr.evs| && CanRun(sr.cfg, s, steps) && CopiesInOrder(sr, s, c, steps)
    ensures CopiesIn(sr.cfg, s, steps) == |sr.evs| - c && AllCopiesWithin(sr.cfg, s, steps, sr.Hashes())
    decreases |steps|
  {
    hide Apply, GoesWell, CopyEvent, CopyPasses, Series.Hashes;
    if steps != [] {
      if Brings(s, steps[0]) {
        CopyBringsHash(sr, steps[0], c);
      }
      CopiesAreItems(sr, Apply(sr.cfg, s, steps[0]), CopiedBy(s, steps[0], c), steps[1..]);
    }
  }

  lemma SeriesTraffic(sr: Series, steps: seq<Step>)
    requires ValidSeries(sr) && IsFresh(sr) && |sr.evs| <= HISTORY_SIZE
    requires CanRun(sr.cfg, sr.start, steps) && CopiesInOrder(sr, sr.start, 0, steps)
    ensures TrafficIn(steps) <= (|sr.cfg.nodes| + 3) * (|sr.cfg.nodes| * |sr.evs|) + |sr.cfg.nodes| * |sr.evs|
  {
    hide CanRun, Inv, Quiescent, TameNodes, CopiesInOrder, CopiesIn, AllCopiesWithin, Series.Hashes, IsFresh,
      ValidFilters;
    assert Inv(sr.cfg, sr.start) && Quiescent(sr.start);
    FreshIsTame(sr);
    HashCount(sr);
    hide ValidSeries;
    CopiesAreItems(sr, sr.start, 0, steps);
    GossipTerminates(sr.cfg, sr.Hashes(), sr.start, steps);
    BoundGrows(|sr.cfg.nodes|, |sr.Hashes()|, |sr.evs|);
  }

  lemma BoundGrows(d: nat, few: nat, many: nat)
    requires few <= many
    ensures (d + 3) * (d * few) <= (d + 3) * (d * many)
  {
    MulMonotone(d, few, many);
    MulMonotone(d + 3, d * few, d * many);
  }
}
