/** One node in a series of copies by another: the ledger of what it has asked for, been answered and written. */
module SeriesFlow {
  import opened Wrappers
  import opened Collections
  import opened Machine
  import opened Domain
  import opened Channel
  import opened History
  import opened Node
  import opened Gossip
  import opened GossipTermination
  import opened CopySeries

  // ---------------------------------------------------------------- what a step does about message i at node n

  predicate LetsThrough(sr: Series, s: State, step: Step, n: NodeID, i: nat)
    requires i < |sr.evs|
  {
    && step.DeliverAnnounce? && step.ann.dst == n && step.ann.ev == sr.Announcement(i)
    && IsNews(At(s, n).chan, step.ann.ev)
  }

  predicate Handles(sr: Series, step: Step, n: NodeID, i: nat)
    requires i < |sr.evs|
  {
    step.HandleAnnounce? && step.ticket == sr.TicketAt(n, i)
  }

  predicate AsksFor(sr: Series, s: State, step: Step, n: NodeID, i: nat)
    requires i < |sr.evs|
  {
    Handles(sr, step, n, i) && Requests(At(s, n), sr.cfg.Peers(n), sr.cfg.Max(n), sr.Announcement(i))
  }

  predicate Serves(sr: Series, step: Step, n: NodeID, i: nat)
    requires i < |sr.evs|
  {
    step.ServeRequest? && step.req == sr.RequestBy(n, i)
  }

  predicate Answers(sr: Series, s: State, step: Step, n: NodeID, i: nat)
    requires i < |sr.evs|
  {
    && Serves(sr, step, n, i) && IsThere(sr, step.file, i)
    && Lookup(At(s, sr.author).chan, sr.evs[i].payload.id).Some?
  }

  predicate Delivers(sr: Series, step: Step, n: NodeID, i: nat)
    requires i < |sr.evs|
  {
    step.DeliverMessage? && step.msg == sr.MessageTo(n, i)
  }

  predicate TakesIn(sr: Series, s: State, step: Step, n: NodeID, i: nat)
    requires i < |sr.evs|
  {
    Delivers(sr, step, n, i) && sr.evs[i].payload.length <= sr.cfg.Max(n) && Accepts(At(s, n).chan, sr.Arrived(n, i))
  }

  predicate Writes(sr: Series, step: Step, n: NodeID, i: nat)
    requires i < |sr.evs|
  {
    step.Inject? && step.item == sr.ArrivedAt(n, i)
  }

  function Num(b: bool): nat {
    if b then 1 else 0
  }

  /** What is on its way to or inside node `n` about message `i` moves one place on, or is lost. */
  ghost predicate Moves(sr: Series, s: State, t: State, step: Step, n: NodeID, i: nat)
    requires i < |sr.evs|
  {
    && t.tickets[sr.TicketAt(n, i)] + Num(Handles(sr, step, n, i))
       == s.tickets[sr.TicketAt(n, i)] + Num(LetsThrough(sr, s, step, n, i))
    && t.reqs[sr.RequestBy(n, i)] + Num(Serves(sr, step, n, i))
       == s.reqs[sr.RequestBy(n, i)] + Num(AsksFor(sr, s, step, n, i))
    && t.msgs[sr.MessageTo(n, i)] + Num(Delivers(sr, step, n, i))
       == s.msgs[sr.MessageTo(n, i)] + Num(Answers(sr, s, step, n, i))
    && t.pending[sr.ArrivedAt(n, i)] + Num(Writes(sr, step, n, i))
       == s.pending[sr.ArrivedAt(n, i)] + Num(TakesIn(sr, s, step, n, i))
  }

  lemma CopyMoves(sr: Series, s: State, m: NodeID, u: Update, id: MessageID, now: Instant, n: NodeID, i: nat)
    requires i < |sr.evs| && n != sr.author && |u.data| < TWO64
    requires m == sr.author || !CopyPasses(At(s, m), CopyEvent(m, u, id, now))
    ensures Moves(sr, s, AfterCopy(sr.cfg, s, m, CopyEvent(m, u, id, now)), Copy(m, u, id, now), n, i)
  {
    hide At, CopyPasses, Copied, CopyEvent, IsNewCopy;
  }

  lemma DeliverAnnounceMoves(sr: Series, s: State, p: AnnPacket, n: NodeID, i: nat)
    requires i < |sr.evs|
    ensures Moves(sr, s, AfterDeliverAnnounce(s, p), DeliverAnnounce(p), n, i)
  {
    hide At, Announced, IsNews;
  }

  /** A request is for message `i` exactly if the announce was. */
  lemma RequestIsFor(sr: Series, c: nat, t: Ticket, n: NodeID, i: nat)
    requires ValidSeries(sr) && i < |sr.evs| && IsAnnouncement(sr, c, t.ev)
    ensures ReqPacket(t.node, t.ev.from, t.ev.payload.id) == sr.RequestBy(n, i) <==> t == sr.TicketAt(n, i)
  {
    var j :| 0 <= j < c && j < |sr.evs| && t.ev == sr.Announcement(j);
    ItemFacts(sr, n, i);
    ItemFacts(sr, n, j);
    if i != j {
      TokensDiffer(sr, n, i, j);
    }
  }

  lemma HandleAnnounceMoves(sr: Series, s: State, c: nat, t: Ticket, n: NodeID, i: nat)
    requires ValidSeries(sr) && i < |sr.evs| && t in s.tickets && IsAnnouncement(sr, c, t.ev)
    ensures Moves(sr, s, AfterHandleAnnounce(sr.cfg, s, t), HandleAnnounce(t), n, i)
  {
    hide ValidSeries, At, AnnounceHandled, Requests, IsAnnouncement;
    RequestIsFor(sr, c, t, n, i);
  }

  /** An answer is message `i` exactly if the request was for it. */
  lemma AnswerIsFor(sr: Series, s: State, c: nat, p: ReqPacket, file: Option<Bytes>, n: NodeID, i: nat)
    requires SourceFollows(sr, s, c) && i < |sr.evs| && IsRequest(sr, c, p)
    requires file == None || file == Some(sr.raw(p.id))
    ensures Answer(At(s, p.dst).chan, p, file) == Some(sr.MessageTo(n, i))
       <==> p == sr.RequestBy(n, i) && IsThere(sr, file, i) && Lookup(At(s, sr.author).chan, sr.evs[i].payload.id).Some?
  {
    hide ValidSeries, HoldsTruly, TrafficFollows, At, Answer, Lookup;
    var j :| 0 <= j < c && j < |sr.evs| && p == sr.RequestBy(p.src, j);
    AnswerIs(sr, At(s, sr.author).chan, p.src, j, file);
    if i != j {
      TokensDiffer(sr, n, i, j);
    }
  }

  lemma OneMoreOf<T>(all: multiset<T>, o: Option<T>, x: T)
    ensures (all + Maybe(o))[x] == all[x] + Num(o == Some(x))
  {
  }

  lemma ServeRequestMoves(sr: Series, s: State, c: nat, p: ReqPacket, file: Option<Bytes>, n: NodeID, i: nat)
    requires SourceFollows(sr, s, c) && i < |sr.evs| && p in s.reqs && GoesWell(sr, ServeRequest(p, file))
    ensures Moves(sr, s, AfterServeRequest(s, p, file), ServeRequest(p, file), n, i)
  {
    hide ValidSeries, HoldsTruly, At, Answer, Maybe, Lookup, IsAnnouncement, IsRequest, IsMessage, IsPending, IsThere;
    AnswerIsFor(sr, s, c, p, file, n, i);
    OneMoreOf(s.msgs, Answer(At(s, p.dst).chan, p, file), sr.MessageTo(n, i));
  }

  /** What is taken in is message `i` exactly if that was delivered. */
  lemma AcceptedIsFor(sr: Series, s: State, c: nat, p: MsgPacket, n: NodeID, i: nat)
    requires ValidSeries(sr) && i < |sr.evs| && IsMessage(sr, c, p)
    ensures Accepted(At(s, p.dst), sr.cfg.Max(p.dst), p, Some(sr.store(p.dst, p.ev.payload.id)))
            == Some(sr.ArrivedAt(n, i))
       <==> p == sr.MessageTo(n, i) && sr.evs[i].payload.length <= sr.cfg.Max(n)
            && Accepts(At(s, n).chan, sr.Arrived(n, i))
  {
    hide ValidSeries, At, MessagePasses, Accepts;
    var j :| 0 <= j < c && j < |sr.evs| && p == sr.MessageTo(p.dst, j);
    PassesAsArrived(sr, At(s, p.dst), p.dst, j);
    if i != j {
      TokensDiffer(sr, n, i, j);
    }
  }

  lemma DeliverMessageMoves(sr: Series, s: State, c: nat, p: MsgPacket, stored: Option<Bytes>, n: NodeID, i: nat)
    requires ValidSeries(sr) && i < |sr.evs| && p in s.msgs && IsMessage(sr, c, p)
    requires GoesWell(sr, DeliverMessage(p, stored))
    ensures Moves(sr, s, AfterDeliverMessage(sr.cfg, s, p, stored), DeliverMessage(p, stored), n, i)
  {
    hide ValidSeries, At, Accepted, MessageHandled, Accepts, IsMessage;
    AcceptedIsFor(sr, s, c, p, n, i);
  }

  lemma InjectMoves(sr: Series, s: State, p: Pending, n: NodeID, i: nat)
    requires i < |sr.evs| && p in s.pending
    ensures Moves(sr, s, AfterInject(sr.cfg, s, p), Inject(p), n, i)
  {
    hide At, Injected, Announcements;
  }

  lemma ExpireMoves(sr: Series, s: State, m: NodeID, bID: MessageID, n: NodeID, i: nat)
    requires i < |sr.evs|
    ensures Moves(sr, s, AfterExpire(s, m, bID), ExpireBatch(m, bID), n, i)
  {
    hide At;
  }

  /** A step of the series, or one that brings nothing. */
  predicate IsStepOf(sr: Series, s: State, step: Step) {
    && Enabled(sr.cfg, s, step) && GoesWell(sr, step)
    && (Brings(s, step) ==> step.Copy? && step.n == sr.author)
  }

  lemma StepMoves(sr: Series, s: State, c: nat, step: Step, n: NodeID, i: nat)
    requires SourceFollows(sr, s, c) && IsStepOf(sr, s, step) && n != sr.author && i < |sr.evs|
    ensures Moves(sr, s, Apply(sr.cfg, s, step), step, n, i)
  {
    hide ValidSeries, HoldsTruly, GoesWell, CopyPasses, CopyEvent, Moves, IsAnnouncement, IsRequest, IsMessage,
      IsPending;
    hide AfterCopy, AfterDeliverAnnounce, AfterHandleAnnounce, AfterServeRequest, AfterDeliverMessage, AfterInject,
      AfterExpire;
    match step
    case Copy(m, u, id, now) => CopyMoves(sr, s, m, u, id, now, n, i);
    case DeliverAnnounce(p) => DeliverAnnounceMoves(sr, s, p, n, i);
    case HandleAnnounce(t) => HandleAnnounceMoves(sr, s, c, t, n, i);
    case ServeRequest(p, file) => ServeRequestMoves(sr, s, c, p, file, n, i);
    case DeliverMessage(p, stored) => DeliverMessageMoves(sr, s, c, p, stored, n, i);
    case Inject(p) => InjectMoves(sr, s, p, n, i);
    case ExpireBatch(m, bID) => ExpireMoves(sr, s, m, bID, n, i);
  }

  // ---------------------------------------------------------------- the announce filter and the last message

  /** Node `n` has let the announce of message `i` through, and its filter holds it. */
  predicate Heard(sr: Series, st: NodeState, i: nat)
    requires i < |sr.evs|
  {
    var data, h := st.chan.announced.data, sr.evs[i].payload.hash;
    h in data && data[h] == sr.Announcement(i)
  }

  ghost function HeardHashes(sr: Series, st: NodeState): set<Uint64> {
    set i | 0 <= i < |sr.evs| && Heard(sr, st, i) :: sr.evs[i].payload.hash
  }

  /** What the filter has let through of the series is newer than all else in it. */
  ghost predicate FilterFollows(sr: Series, st: NodeState) {
    ValidFifo(st.chan.announced, HISTORY_SIZE) && Aged(st.chan.announced.order, HeardHashes(sr, st))
  }

  lemma HeardAreHashes(sr: Series, st: NodeState)
    ensures HeardHashes(sr, st) <= sr.Hashes()
  {
  }

  /** The announce of message `j` comes to a filter of no fewer places than there are messages: if it is let through,
      nothing of the series is pushed out. */
  lemma FilterLearns(sr: Series, st: NodeState, j: nat)
    requires ValidSeries(sr) && |sr.evs| <= HISTORY_SIZE && j < |sr.evs| && FilterFollows(sr, st)
    ensures
      var st' := st.(chan := Announced(st.chan, sr.Announcement(j)));
      && FilterFollows(sr, st')
      && forall i: nat :: i < |sr.evs| ==>
           (Heard(sr, st', i) <==> Heard(sr, st, i) || (i == j && IsNews(st.chan, sr.Announcement(j))))
  {
    var f, ann, h := st.chan.announced, sr.Announcement(j), sr.evs[j].payload.hash;
    ItemFacts(sr, 0, j);
    if IsNews(st.chan, ann) {
      var known := HeardHashes(sr, st) + {h};
      HeardAreHashes(sr, st);
      HashCount(sr);
      SubsetSize(known, sr.Hashes());
      NewsIsAged(f, HeardHashes(sr, st), h);
      AddedKeepsContents(f, known, h, ann);
      FilterLearnsNews(sr, st, j);
    }
  }

  lemma NewsIsAged(f: Fifo<Uint64, EventAnnounce>, known: set<Uint64>, h: Uint64)
    requires ValidFifo(f, HISTORY_SIZE) && Aged(f.order, known) && h !in f.data
    ensures Aged(f.order, known + {h})
  {
  }

  lemma FilterLearnsNews(sr: Series, st: NodeState, j: nat)
    requires ValidSeries(sr) && j < |sr.evs| && IsNews(st.chan, sr.Announcement(j))
    requires
      var g := Added(st.chan.announced, HISTORY_SIZE, sr.evs[j].payload.hash, sr.Announcement(j));
      var known := HeardHashes(sr, st) + {sr.evs[j].payload.hash};
      && ValidFifo(g, HISTORY_SIZE) && Aged(g.order, known)
      && forall c :: c in known ==> (c in g.data <==> c in st.chan.announced.data || c == sr.evs[j].payload.hash)
    ensures
      var st' := st.(chan := Announced(st.chan, sr.Announcement(j)));
      && FilterFollows(sr, st')
      && forall i: nat :: i < |sr.evs| ==> (Heard(sr, st', i) <==> Heard(sr, st, i) || i == j)
  {
    var st' := st.(chan := Announced(st.chan, sr.Announcement(j)));
    ItemFacts(sr, 0, j);
    forall i: nat | i < |sr.evs| ensures Heard(sr, st', i) <==> Heard(sr, st, i) || i == j {
      if i != j {
        ItemsDiffer(sr, i, j);
        assert Heard(sr, st, i) ==> sr.evs[i].payload.hash in HeardHashes(sr, st);
      }
    }
    hide ValidSeries, ValidFifo;
    assert HeardHashes(sr, st') == HeardHashes(sr, st) + {sr.evs[j].payload.hash};
  }

  /** What a step does to the channel of node `n`. */
  lemma StepChannel(sr: Series, s: State, c: nat, step: Step, n: NodeID)
    requires SourceFollows(sr, s, c) && IsStepOf(sr, s, step) && n != sr.author
    ensures
      var before, after := At(s, n).chan, At(Apply(sr.cfg, s, step), n).chan;
      && after.announced == (if step.DeliverAnnounce? && step.ann.dst == n then Announced(before, step.ann.ev).announced
                             else before.announced)
      && (forall i: nat :: i < |sr.evs| && TakesIn(sr, s, step, n, i) ==> after.last == sr.Arrived(n, i))
      && ((forall i: nat :: i < |sr.evs| ==> !TakesIn(sr, s, step, n, i)) ==> after.last == before.last)
  {
    hide ValidSeries, HoldsTruly, At, CopyEvent, Announced, Requests, Sent, Accepts, IsAnnouncement, IsRequest,
      IsPending, MessageHandled;
    hide AfterCopy, AfterDeliverAnnounce, AfterHandleAnnounce, AfterServeRequest, AfterDeliverMessage, AfterInject,
      AfterExpire;
    match step
    case Copy(m, u, id, now) =>
      NodeAfterCopy(sr.cfg, s, m, CopyEvent(m, u, id, now), n);
      EchoLeavesChannel(At(s, m), CopyEvent(m, u, id, now));
    case DeliverAnnounce(p) =>
      NodeAfterDeliverAnnounce(s, p, n);
      AnnouncedLeavesLast(At(s, n).chan, p.ev);
    case HandleAnnounce(t) =>
      NodeAfterHandleAnnounce(sr.cfg, s, t, n);
    case ServeRequest(p, file) => NodeAfterServeRequest(s, p, file, n);
    case DeliverMessage(p, stored) =>
      NodeAfterDeliverMessage(sr.cfg, s, p, stored, n);
      if p.dst == n {
        DeliveredChannel(sr, c, At(s, n), p);
        forall i: nat | i < |sr.evs| && p == sr.MessageTo(n, i)
          ensures TakesIn(sr, s, step, n, i)
             <==> sr.evs[i].payload.length <= sr.cfg.Max(n) && Accepts(At(s, n).chan, sr.Arrived(n, i))
        {
        }
      }
    case Inject(p) =>
      NodeAfterInject(sr.cfg, s, p, n);
    case ExpireBatch(m, bID) => NodeAfterExpire(s, m, bID, n);
  }

  lemma EchoLeavesChannel(st: NodeState, ev: EventMessage)
    ensures !CopyPasses(st, ev) ==> Copied(st, ev).chan == st.chan
  {
  }

  lemma AnnouncedLeavesLast(c: Chan, ann: EventAnnounce)
    ensures Announced(c, ann).last == c.last
  {
  }

  lemma DeliveredChannel(sr: Series, c: nat, st: NodeState, p: MsgPacket)
    requires ValidSeries(sr) && IsMessage(sr, c, p)
    ensures
      var after := MessageHandled(st, sr.cfg.Max(p.dst), p.ev, p.raw, Some(sr.store(p.dst, p.ev.payload.id))).chan;
      && after.announced == st.chan.announced
      && (forall i: nat :: i < |sr.evs| ==>
            if p == sr.MessageTo(p.dst, i) && sr.evs[i].payload.length <= sr.cfg.Max(p.dst)
               && Accepts(st.chan, sr.Arrived(p.dst, i))
            then after.last == sr.Arrived(p.dst, i) else true)
      && ((forall i: nat :: i < |sr.evs| && p == sr.MessageTo(p.dst, i) ==>
             !(sr.evs[i].payload.length <= sr.cfg.Max(p.dst) && Accepts(st.chan, sr.Arrived(p.dst, i))))
          ==> after.last == st.chan.last)
  {
    hide ValidSeries, Accepts;
    var j :| 0 <= j < c && j < |sr.evs| && p == sr.MessageTo(p.dst, j);
    PassesAsArrived(sr, st, p.dst, j);
    forall i: nat | i < |sr.evs| && i != j ensures p != sr.MessageTo(p.dst, i) {
      TokensDiffer(sr, p.dst, i, j);
    }
  }

  /** What a step does to the announce filter of node `n`. */
  lemma StepFilter(sr: Series, s: State, c: nat, step: Step, n: NodeID)
    requires SourceFollows(sr, s, c) && IsStepOf(sr, s, step) && n != sr.author && |sr.evs| <= HISTORY_SIZE
    requires FilterFollows(sr, At(s, n))
    ensures
      var t := Apply(sr.cfg, s, step);
      && FilterFollows(sr, At(t, n))
      && forall i: nat :: i < |sr.evs| ==>
           && (Heard(sr, At(t, n), i) <==> Heard(sr, At(s, n), i) || LetsThrough(sr, s, step, n, i))
           && (LetsThrough(sr, s, step, n, i) ==> !Heard(sr, At(s, n), i) && i < c)
  {
    hide ValidSeries, HoldsTruly, At, Apply, Enabled, Brings, GoesWell, Announced, ValidFifo, Aged;
    StepChannel(sr, s, c, step, n);
    var st, st' := At(s, n), At(Apply(sr.cfg, s, step), n);
    if step.DeliverAnnounce? && step.ann.dst == n {
      var p := step.ann;
      AnnounceIsItem(sr, s, c, p);
      var j :| 0 <= j < c && j < |sr.evs| && p.ev == sr.Announcement(j);
      FilterLearns(sr, st, j);
      SameFilter(sr, st.(chan := Announced(st.chan, p.ev)), st');
      ItemFacts(sr, n, j);
      forall i: nat | i < |sr.evs| && i != j ensures sr.Announcement(i) != sr.Announcement(j) {
        TokensDiffer(sr, n, i, j);
      }
    } else {
      SameFilter(sr, st, st');
    }
  }

  lemma AnnounceIsItem(sr: Series, s: State, c: nat, p: AnnPacket)
    requires SourceFollows(sr, s, c) && Enabled(sr.cfg, s, DeliverAnnounce(p))
    ensures exists j :: 0 <= j < c && j < |sr.evs| && p.ev == sr.Announcement(j)
  {
    assert IsAnnouncement(sr, c, p.ev);
  }

  lemma SameFilter(sr: Series, a: NodeState, b: NodeState)
    requires a.chan.announced == b.chan.announced
    ensures HeardHashes(sr, a) == HeardHashes(sr, b)
    ensures FilterFollows(sr, a) <==> FilterFollows(sr, b)
    ensures forall i: nat :: i < |sr.evs| ==> (Heard(sr, a, i) <==> Heard(sr, b, i))
  {
  }

  // ---------------------------------------------------------------- the ledger of one node

  /** How often node `n` has asked for a message, been answered, not been answered, and written it. */
  datatype Tally = Tally(asked: nat, answered: nat, refused: nat, written: nat)

  function AfterTally(sr: Series, s: State, step: Step, n: NodeID, i: nat, t: Tally): Tally
    requires i < |sr.evs|
  {
    Tally(t.asked + Num(AsksFor(sr, s, step, n, i)), t.answered + Num(Answers(sr, s, step, n, i)),
          t.refused + Num(Serves(sr, step, n, i) && !Answers(sr, s, step, n, i)),
          t.written + Num(Writes(sr, step, n, i)))
  }

  function NewTallies(sr: Series): (ts: seq<Tally>)
    ensures |ts| == |sr.evs|
  {
    seq(|sr.evs|, _ => Tally(0, 0, 0, 0))
  }

  lemma NewTalliesAre(sr: Series, i: nat)
    requires i < |sr.evs|
    ensures |NewTallies(sr)| == |sr.evs| && NewTallies(sr)[i] == Tally(0, 0, 0, 0)
  {
  }

  function AfterTallies(sr: Series, s: State, step: Step, n: NodeID, ts: seq<Tally>): (us: seq<Tally>)
    requires |ts| == |sr.evs|
    ensures |us| == |sr.evs|
  {
    seq(|sr.evs|, i requires 0 <= i < |sr.evs| => AfterTally(sr, s, step, n, i, ts[i]))
  }

  /** The ledger at the end of a run. */
  ghost function Tallies(sr: Series, s: State, n: NodeID, ts: seq<Tally>, steps: seq<Step>): (r: seq<Tally>)
    requires CanRun(sr.cfg, s, steps) && |ts| == |sr.evs|
    ensures |r| == |sr.evs|
    decreases |steps|
  {
    if steps == [] then ts
    else Tallies(sr, Apply(sr.cfg, s, steps[0]), n, AfterTallies(sr, s, steps[0], n, ts), steps[1..])
  }

  /** Whatever was asked for has been answered, has not, or is asked for still; whatever was answered is written or on
      its way; and nothing is asked for more than once. */
  ghost predicate Balanced(sr: Series, s: State, n: NodeID, i: nat, t: Tally)
    requires i < |sr.evs|
  {
    && t.asked == s.reqs[sr.RequestBy(n, i)] + t.answered + t.refused
    && t.answered == s.msgs[sr.MessageTo(n, i)] + s.pending[sr.ArrivedAt(n, i)] + t.written
    && s.tickets[sr.TicketAt(n, i)] + t.asked <= Num(Heard(sr, At(s, n), i))
  }

  /** A message that is asked for or on its way will be taken in. */
  ghost predicate IsWelcome(sr: Series, s: State, n: NodeID, i: nat)
    requires i < |sr.evs|
  {
    0 < s.reqs[sr.RequestBy(n, i)] + s.msgs[sr.MessageTo(n, i)] ==>
      && sr.evs[i].payload.length <= sr.cfg.Max(n)
      && At(s, n).chan.last.payload.id != sr.evs[i].payload.id
      && At(s, n).chan.last.payload.hash != sr.evs[i].payload.hash
  }

  ghost predicate ItemFollows(sr: Series, s: State, c: nat, n: NodeID, i: nat, t: Tally)
    requires i < |sr.evs|
  {
    Balanced(sr, s, n, i, t) && IsWelcome(sr, s, n, i) && (Heard(sr, At(s, n), i) ==> i < c)
  }

  ghost predicate ItemsFollow(sr: Series, s: State, c: nat, n: NodeID, ts: seq<Tally>) {
    |ts| == |sr.evs| && forall i :: 0 <= i < |sr.evs| ==> ItemFollows(sr, s, c, n, i, ts[i])
  }

  /** The last message is the one from before the series or one that has been taken in. */
  ghost predicate LastFollows(sr: Series, s: State, n: NodeID, ts: seq<Tally>)
    requires |ts| == |sr.evs|
  {
    var last := At(s, n).chan.last;
    || last == At(sr.start, n).chan.last
    || exists i :: 0 <= i < |sr.evs| && last == sr.Arrived(n, i) && 0 < s.pending[sr.ArrivedAt(n, i)] + ts[i].written
  }

  ghost predicate PeerFollows(sr: Series, s: State, c: nat, n: NodeID, ts: seq<Tally>) {
    ItemsFollow(sr, s, c, n, ts) && FilterFollows(sr, At(s, n)) && LastFollows(sr, s, n, ts)
  }

  /** What is delivered is taken in. */
  lemma WelcomeIsTakenIn(sr: Series, s: State, step: Step, n: NodeID, i: nat)
    requires ValidSeries(sr) && i < |sr.evs| && IsWelcome(sr, s, n, i) && Enabled(sr.cfg, s, step)
    ensures Delivers(sr, step, n, i) <==> TakesIn(sr, s, step, n, i)
  {
    ItemFacts(sr, n, i);
    hide ValidSeries, At;
  }

  lemma AskedIsWelcome(sr: Series, s: State, step: Step, n: NodeID, i: nat)
    requires ValidSeries(sr) && i < |sr.evs| && AsksFor(sr, s, step, n, i)
    ensures sr.evs[i].payload.length <= sr.cfg.Max(n) && sr.author in sr.cfg.Peers(n)
    ensures At(s, n).chan.last.payload.id != sr.evs[i].payload.id
    ensures At(s, n).chan.last.payload.hash != sr.evs[i].payload.hash
  {
    ItemFacts(sr, n, i);
    hide ValidSeries, At;
  }

  lemma StepBalances(sr: Series, s: State, c: nat, step: Step, n: NodeID, i: nat, t: Tally)
    requires SourceFollows(sr, s, c) && IsStepOf(sr, s, step) && n != sr.author && |sr.evs| <= HISTORY_SIZE
    requires FilterFollows(sr, At(s, n)) && i < |sr.evs| && ItemFollows(sr, s, c, n, i, t)
    ensures Balanced(sr, Apply(sr.cfg, s, step), n, i, AfterTally(sr, s, step, n, i, t))
  {
    hide ValidSeries, HoldsTruly, TrafficFollows, FilterFollows, At, Apply, Enabled, Brings, GoesWell, Heard,
      LetsThrough, AsksFor, Lookup, TakesIn, IsWelcome, Handles, Delivers, Writes;
    StepMoves(sr, s, c, step, n, i);
    StepFilter(sr, s, c, step, n);
    WelcomeIsTakenIn(sr, s, step, n, i);
    assert AsksFor(sr, s, step, n, i) ==> Handles(sr, step, n, i) by { AskingIsHandling(sr, s, step, n, i); }
    assert Answers(sr, s, step, n, i) ==> Serves(sr, step, n, i);
  }

  lemma AskingIsHandling(sr: Series, s: State, step: Step, n: NodeID, i: nat)
    requires i < |sr.evs|
    ensures AsksFor(sr, s, step, n, i) ==> Handles(sr, step, n, i)
  {
  }

  lemma StepWelcomes(sr: Series, s: State, c: nat, step: Step, n: NodeID, i: nat, t: Tally)
    requires SourceFollows(sr, s, c) && IsStepOf(sr, s, step) && n != sr.author && |sr.evs| <= HISTORY_SIZE
    requires FilterFollows(sr, At(s, n)) && i < |sr.evs| && ItemFollows(sr, s, c, n, i, t)
    ensures IsWelcome(sr, Apply(sr.cfg, s, step), n, i)
  {
    hide ValidSeries, HoldsTruly, TrafficFollows, FilterFollows, At, Apply, Enabled, Brings, GoesWell, Heard,
      LetsThrough, AsksFor, Lookup, TakesIn, Handles, Delivers, Writes;
    StepMoves(sr, s, c, step, n, i);
    StepChannel(sr, s, c, step, n);
    WelcomeIsTakenIn(sr, s, step, n, i);
    AskingIsHandling(sr, s, step, n, i);
    if AsksFor(sr, s, step, n, i) {
      AskedIsWelcome(sr, s, step, n, i);
    }
    if j: nat :| j < |sr.evs| && TakesIn(sr, s, step, n, j) {
      ItemFacts(sr, n, j);
      OneAtATime(sr, s, step, n, i, j);
      if i != j {
        ItemsDiffer(sr, i, j);
      }
    }
  }

  /** A step does one thing. */
  lemma OneAtATime(sr: Series, s: State, step: Step, n: NodeID, i: nat, j: nat)
    requires ValidSeries(sr) && i < |sr.evs| && j < |sr.evs| && TakesIn(sr, s, step, n, j)
    ensures !AsksFor(sr, s, step, n, i) && !Serves(sr, step, n, i) && !Handles(sr, step, n, i)
    ensures Delivers(sr, step, n, j) && (i != j ==> !Delivers(sr, step, n, i))
  {
    hide ValidSeries, Accepts;
    if i != j {
      TokensDiffer(sr, n, i, j);
    }
  }

  lemma StepItem(sr: Series, s: State, c: nat, step: Step, n: NodeID, i: nat, t: Tally)
    requires SourceFollows(sr, s, c) && IsStepOf(sr, s, step) && n != sr.author && |sr.evs| <= HISTORY_SIZE
    requires FilterFollows(sr, At(s, n)) && i < |sr.evs| && ItemFollows(sr, s, c, n, i, t)
    ensures ItemFollows(sr, Apply(sr.cfg, s, step), c, n, i, AfterTally(sr, s, step, n, i, t))
  {
    hide SourceFollows, IsStepOf, FilterFollows, Balanced, IsWelcome, At, Apply, Heard, LetsThrough, AfterTally;
    StepBalances(sr, s, c, step, n, i, t);
    StepWelcomes(sr, s, c, step, n, i, t);
    StepFilter(sr, s, c, step, n);
  }

  /** What has been taken in stays. */
  lemma StepKeepsTaken(sr: Series, s: State, c: nat, step: Step, n: NodeID, i: nat, t: Tally)
    requires SourceFollows(sr, s, c) && IsStepOf(sr, s, step) && n != sr.author && i < |sr.evs|
    ensures s.pending[sr.ArrivedAt(n, i)] + t.written + Num(TakesIn(sr, s, step, n, i))
         == Apply(sr.cfg, s, step).pending[sr.ArrivedAt(n, i)] + AfterTally(sr, s, step, n, i, t).written
  {
    hide SourceFollows, IsStepOf, Apply, TakesIn, Writes, AsksFor, Serves, Answers, LetsThrough, Handles, Delivers;
    StepMoves(sr, s, c, step, n, i);
  }

  lemma StepLast(sr: Series, s: State, c: nat, step: Step, n: NodeID, ts: seq<Tally>)
    requires SourceFollows(sr, s, c) && IsStepOf(sr, s, step) && n != sr.author
    requires |ts| == |sr.evs| && LastFollows(sr, s, n, ts)
    ensures LastFollows(sr, Apply(sr.cfg, s, step), n, AfterTallies(sr, s, step, n, ts))
  {
    hide SourceFollows, Enabled, Brings, GoesWell, At, Apply, TakesIn, AfterTally;
    StepChannel(sr, s, c, step, n);
    var t := Apply(sr.cfg, s, step);
    if i: nat :| i < |sr.evs| && TakesIn(sr, s, step, n, i) {
      StepKeepsTaken(sr, s, c, step, n, i, ts[i]);
      assert At(t, n).chan.last == sr.Arrived(n, i);
    } else if At(s, n).chan.last != At(sr.start, n).chan.last {
      var i :| 0 <= i < |sr.evs| && At(s, n).chan.last == sr.Arrived(n, i)
        && 0 < s.pending[sr.ArrivedAt(n, i)] + ts[i].written;
      StepKeepsTaken(sr, s, c, step, n, i, ts[i]);
      assert At(t, n).chan.last == sr.Arrived(n, i);
    }
  }

  /** Every step keeps the ledger of a node. */
  lemma StepPeer(sr: Series, s: State, c: nat, step: Step, n: NodeID, ts: seq<Tally>)
    requires SourceFollows(sr, s, c) && IsStepOf(sr, s, step) && n != sr.author && |sr.evs| <= HISTORY_SIZE
    requires PeerFollows(sr, s, c, n, ts)
    ensures PeerFollows(sr, Apply(sr.cfg, s, step), c, n, AfterTallies(sr, s, step, n, ts))
  {
    hide SourceFollows, Enabled, Brings, GoesWell, FilterFollows, ItemFollows, LastFollows, At, Apply, AfterTally;
    StepLast(sr, s, c, step, n, ts);
    StepFilter(sr, s, c, step, n);
    forall i: nat | i < |sr.evs|
      ensures ItemFollows(sr, Apply(sr.cfg, s, step), c, n, i, AfterTally(sr, s, step, n, i, ts[i]))
    {
      assert ItemFollows(sr, s, c, n, i, ts[i]);
      StepItem(sr, s, c, step, n, i, ts[i]);
    }
  }

  lemma OneMoreCopied(sr: Series, s: State, c: nat, n: NodeID, ts: seq<Tally>)
    requires PeerFollows(sr, s, c, n, ts)
    ensures PeerFollows(sr, s, c + 1, n, ts)
  {
    hide At, FilterFollows, LastFollows, Balanced, IsWelcome, Heard;
    var next := c + 1;
    forall i | 0 <= i < |sr.evs| ensures ItemFollows(sr, s, next, n, i, ts[i]) {
      assert ItemFollows(sr, s, c, n, i, ts[i]);
    }
  }

  lemma PeerStarts(sr: Series, n: NodeID)
    requires ValidSeries(sr)
    ensures PeerFollows(sr, sr.start, 0, n, NewTallies(sr))
    ensures forall i: nat :: i < |sr.evs| ==> !Heard(sr, At(sr.start, n), i)
  {
    StartIsQuiet(sr);
    forall i: nat | i < |sr.evs| ensures !Heard(sr, At(sr.start, n), i) {
      IdsAreNew(sr, n, i);
      ItemFacts(sr, n, i);
    }
    assert ValidFifo(At(sr.start, n).chan.announced, HISTORY_SIZE);
    hide ValidSeries, At, ValidFifo, Heard;
    assert HeardHashes(sr, At(sr.start, n)) == {};
    forall i: nat | i < |sr.evs| ensures ItemFollows(sr, sr.start, 0, n, i, Tally(0, 0, 0, 0)) {
    }
  }

  // ---------------------------------------------------------------- runs

  /** The messages are copied in their order, starting with the one at `c`, and the environment does what they need.
      Whatever else happens may come in between. */
  ghost predicate CopiesInOrder(sr: Series, s: State, c: nat, steps: seq<Step>)
    requires CanRun(sr.cfg, s, steps)
    decreases |steps|
  {
    if steps == [] then c == |sr.evs|
    else if Brings(s, steps[0]) then
      && c < |sr.evs| && steps[0].n == sr.author
      && CopyEvent(steps[0].n, steps[0].u, steps[0].id, steps[0].now) == sr.evs[c]
      && CopiesInOrder(sr, Apply(sr.cfg, s, steps[0]), c + 1, steps[1..])
    else GoesWell(sr, steps[0]) && CopiesInOrder(sr, Apply(sr.cfg, s, steps[0]), c, steps[1..])
  }

  /** How many messages have been copied after the step. */
  function CopiedBy(s: State, step: Step, c: nat): nat {
    c + Num(Brings(s, step))
  }

  /** The first step of such a run is one of the series. */
  lemma FirstIsStepOf(sr: Series, s: State, c: nat, steps: seq<Step>)
    requires SourceFollows(sr, s, c) && CanRun(sr.cfg, s, steps) && steps != [] && CopiesInOrder(sr, s, c, steps)
    ensures IsStepOf(sr, s, steps[0]) && SourceFollows(sr, Apply(sr.cfg, s, steps[0]), CopiedBy(s, steps[0], c))
    ensures CopiesInOrder(sr, Apply(sr.cfg, s, steps[0]), CopiedBy(s, steps[0], c), steps[1..])
  {
    hide SourceFollows, Apply, Enabled, Brings, GoesWell, CopyEvent;
    OnlyCopiesBring(s, steps[0]);
    if Brings(s, steps[0]) {
      CopyIsNext(sr, s, c, steps[0]);
    } else {
      StepSource(sr, s, c, steps[0]);
    }
  }

  lemma CopyIsNext(sr: Series, s: State, c: nat, step: Step)
    requires SourceFollows(sr, s, c) && c < |sr.evs| && Enabled(sr.cfg, s, step) && Brings(s, step)
    requires step.n == sr.author && CopyEvent(step.n, step.u, step.id, step.now) == sr.evs[c]
    ensures GoesWell(sr, step) && SourceFollows(sr, Apply(sr.cfg, s, step), c + 1)
  {
    hide SourceFollows, AfterCopy, CopyPasses, CopyEvent;
    NextCopySource(sr, s, c);
  }

  lemma {:induction false} RunSource(sr: Series, s: State, c: nat, steps: seq<Step>)
    requires SourceFollows(sr, s, c) && CanRun(sr.cfg, s, steps) && CopiesInOrder(sr, s, c, steps)
    ensures SourceFollows(sr, Gossip.Run(sr.cfg, s, steps), |sr.evs|)
    decreases |steps|
  {
    hide SourceFollows, CopiesInOrder, IsStepOf, Apply, Enabled;
    if steps != [] {
      FirstIsStepOf(sr, s, c, steps);
      RunSource(sr, Apply(sr.cfg, s, steps[0]), CopiedBy(s, steps[0], c), steps[1..]);
    } else {
      assert c == |sr.evs| by { NoneLeft(sr, s, c); }
    }
  }

  lemma NoneLeft(sr: Series, s: State, c: nat)
    requires CopiesInOrder(sr, s, c, [])
    ensures c == |sr.evs|
  {
  }

  lemma {:induction false} RunPeer(sr: Series, s: State, c: nat, n: NodeID, ts: seq<Tally>, steps: seq<Step>)
    requires SourceFollows(sr, s, c) && n != sr.author && |sr.evs| <= HISTORY_SIZE && PeerFollows(sr, s, c, n, ts)
    requires CanRun(sr.cfg, s, steps) && CopiesInOrder(sr, s, c, steps)
    ensures PeerFollows(sr, Gossip.Run(sr.cfg, s, steps), |sr.evs|, n, Tallies(sr, s, n, ts, steps))
    decreases |steps|
  {
    hide SourceFollows, CopiesInOrder, IsStepOf, Apply, Enabled, FilterFollows, ItemFollows, LastFollows, AfterTallies,
      Brings;
    if steps != [] {
      var next := Apply(sr.cfg, s, steps[0]);
      FirstIsStepOf(sr, s, c, steps);
      StepPeer(sr, s, c, steps[0], n, ts);
      if Brings(s, steps[0]) {
        OneMoreCopied(sr, next, c, n, AfterTallies(sr, s, steps[0], n, ts));
      }
      RunPeer(sr, next, CopiedBy(s, steps[0], c), n, AfterTallies(sr, s, steps[0], n, ts), steps[1..]);
    } else {
      NoneLeft(sr, s, c);
    }
  }

  /** The ledger of node `n` over a run from the start. */
  ghost function Ledger(sr: Series, n: NodeID, steps: seq<Step>): (r: seq<Tally>)
    requires CanRun(sr.cfg, sr.start, steps)
    ensures |r| == |sr.evs|
  {
    Tallies(sr, sr.start, n, NewTallies(sr), steps)
  }

  /** At rest every node has written each of up to `HISTORY_SIZE` messages exactly as often as it was answered, which
      is once if it asked and its request was answered. */
  lemma WrittenAsAnswered(sr: Series, steps: seq<Step>, n: NodeID, i: nat)
    requires ValidSeries(sr) && |sr.evs| <= HISTORY_SIZE && n != sr.author && i < |sr.evs|
    requires CanRun(sr.cfg, sr.start, steps) && CopiesInOrder(sr, sr.start, 0, steps)
    requires Quiescent(Gossip.Run(sr.cfg, sr.start, steps))
    ensures
      var t := Ledger(sr, n, steps)[i];
      t.written == t.answered && t.asked == t.answered + t.refused && t.asked <= 1
  {
    hide ValidSeries, SourceFollows, CopiesInOrder, FilterFollows, LastFollows, IsWelcome, At, Tallies, NewTallies;
    SourceStarts(sr);
    PeerStarts(sr, n);
    RunPeer(sr, sr.start, 0, n, NewTallies(sr), steps);
    var end := Gossip.Run(sr.cfg, sr.start, steps);
    assert ItemFollows(sr, end, |sr.evs|, n, i, Ledger(sr, n, steps)[i]);
  }

  // ---------------------------------------------------------------- one run after another

  /** The step may come next when `c` messages have been copied, and `d` have been after it. */
  ghost predicate IsNextStep(sr: Series, s: State, c: nat, step: Step, d: nat) {
    && Enabled(sr.cfg, s, step) && d == CopiedBy(s, step, c)
    && (if Brings(s, step)
        then step.n == sr.author && c < |sr.evs| && CopyEvent(step.n, step.u, step.id, step.now) == sr.evs[c]
        else GoesWell(sr, step))
  }

  /** A run with one more step in front. */
  lemma RunFrom(sr: Series, s: State, c: nat, step: Step, d: nat, steps: seq<Step>)
    requires IsNextStep(sr, s, c, step, d)
    requires CanRun(sr.cfg, Apply(sr.cfg, s, step), steps) && CopiesInOrder(sr, Apply(sr.cfg, s, step), d, steps)
    ensures CanRun(sr.cfg, s, [step] + steps) && CopiesInOrder(sr, s, c, [step] + steps)
    ensures Gossip.Run(sr.cfg, s, [step] + steps) == Gossip.Run(sr.cfg, Apply(sr.cfg, s, step), steps)
  {
    hide Apply, Enabled, GoesWell, CopyEvent, CopyPasses;
    var all := [step] + steps;
    assert all[0] == step && all[1..] == steps;
  }

  /** Two runs make one run, and the ledger goes on where it was. */
  lemma {:induction false} RunsJoin(sr: Series, s: State, c: nat, n: NodeID, ts: seq<Tally>, first: seq<Step>,
                                    rest: seq<Step>)
    requires |ts| == |sr.evs|
    requires CanRun(sr.cfg, s, first) && CopiesInOrder(sr, s, c, first)
    requires CanRun(sr.cfg, Gossip.Run(sr.cfg, s, first), rest)
    requires CopiesInOrder(sr, Gossip.Run(sr.cfg, s, first), |sr.evs|, rest)
    ensures CanRun(sr.cfg, s, first + rest) && CopiesInOrder(sr, s, c, first + rest)
    ensures Gossip.Run(sr.cfg, s, first + rest) == Gossip.Run(sr.cfg, Gossip.Run(sr.cfg, s, first), rest)
    ensures Tallies(sr, s, n, ts, first + rest)
         == Tallies(sr, Gossip.Run(sr.cfg, s, first), n, Tallies(sr, s, n, ts, first), rest)
    decreases |first|
  {
    hide Apply, Enabled, Brings, GoesWell, CopyEvent, AfterTallies;
    if first == [] {
      assert first + rest == rest;
    } else {
      assert (first + rest)[0] == first[0] && (first + rest)[1..] == first[1..] + rest;
      RunsJoin(sr, Apply(sr.cfg, s, first[0]), CopiedBy(s, first[0], c), n, AfterTallies(sr, s, first[0], n, ts),
               first[1..], rest);
    }
  }
}
