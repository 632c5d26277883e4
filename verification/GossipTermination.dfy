/** Gossip dies out. While no more contents are in play than the announce history holds, every node passes each
    content on at most once, and the traffic of a run is bounded by its copies. */
module GossipTermination {
  import opened Wrappers
  import opened Collections
  import opened Machine
  import opened Domain
  import opened Channel
  import opened History
  import opened Node
  import opened Gossip
  import opened GossipSafety

  /** Older keys of a history are outside `contents`, newer ones are in it. */
  ghost predicate Aged(order: seq<Uint64>, contents: set<Uint64>) {
    forall i, j :: 0 <= i < j < |order| && order[i] in contents ==> order[j] in contents
  }

  ghost predicate TameNodes(contents: set<Uint64>, nodes: map<NodeID, NodeState>) {
    forall n :: n in nodes ==>
      ValidFifo(nodes[n].chan.announced, HISTORY_SIZE) && Aged(nodes[n].chan.announced.order, contents)
  }

  /** All traffic is about `contents`. */
  ghost predicate InPlay(contents: set<Uint64>, s: State) {
    && (forall p :: p in s.anns ==> p.ev.payload.hash in contents)
    && (forall t :: t in s.tickets ==> t.ev.payload.hash in contents)
    && (forall p :: p in s.reqs ==> p.id in s.published && s.published[p.id].hash in contents)
    && (forall p :: p in s.msgs ==> p.ev.payload.hash in contents)
    && (forall i :: i in s.pending ==> i.ev.payload.hash in contents)
  }

  ghost predicate Tame(cfg: Config, contents: set<Uint64>, s: State) {
    Inv(cfg, s) && |contents| <= HISTORY_SIZE && TameNodes(contents, s.nodes) && InPlay(contents, s)
  }

  /** The pairs of a node and a content that its announce filter would still let through. */
  ghost function Slots(cfg: Config, contents: set<Uint64>, nodes: map<NodeID, NodeState>): set<(NodeID, Uint64)>
    requires nodes.Keys == cfg.nodes
  {
    set n, h | n in cfg.nodes && h in contents && h !in nodes[n].chan.announced.data :: (n, h)
  }

  /** A weight for every slot and everything in flight, heavier the more traffic it may still cause
      among `d` nodes. */
  function Weight(d: nat, slots: nat, tickets: nat, reqs: nat, msgs: nat, pending: nat, anns: nat): int {
    (d + 3) * slots + (d + 3) * tickets + (d + 2) * reqs + (d + 1) * msgs + d * pending + anns
  }

  lemma WeightIsNatural(d: nat, slots: nat, tickets: nat, reqs: nat, msgs: nat, pending: nat, anns: nat)
    ensures 0 <= Weight(d, slots, tickets, reqs, msgs, pending, anns)
  {
    assert 0 <= (d + 3) * slots && 0 <= (d + 3) * tickets && 0 <= (d + 2) * reqs;
    assert 0 <= (d + 1) * msgs && 0 <= d * pending;
  }

  ghost function Measure(cfg: Config, contents: set<Uint64>, s: State): int
    requires s.nodes.Keys == cfg.nodes
  {
    Weight(|cfg.nodes|, |Slots(cfg, contents, s.nodes)|, |s.tickets|, |s.reqs|, |s.msgs|, |s.pending|, |s.anns|)
  }

  predicate IsTraffic(step: Step) {
    !step.Copy? && !step.ExpireBatch?
  }

  /** The step is a copy that passes the watcher and the channel of its node. What a node reports of a write to its
      own clipboard does not: it repeats the last message. */
  predicate Brings(s: State, step: Step) {
    step.Copy? && |step.u.data| < TWO64
    && CopyPasses(At(s, step.n), CopyEvent(step.n, step.u, step.id, step.now))
  }

  /** A copy brings in no new content. */
  predicate CopiesWithin(s: State, step: Step, contents: set<Uint64>) {
    Brings(s, step) ==> step.u.hash in contents
  }

  /** A copy of the content and kind that the channel has last let through does not pass. */
  lemma EchoBringsNothing(s: State, step: Step)
    requires step.Copy? && |step.u.data| < TWO64 && step.u.hash != 0 && !At(s, step.n).chan.last.payload.Zero()
    requires step.u.hash == At(s, step.n).chan.last.payload.hash && step.u.mime == At(s, step.n).chan.last.payload.mime
    ensures !Brings(s, step)
  {
  }

  lemma {:induction false} DistinctWithin(keys: seq<Uint64>, contents: set<Uint64>)
    requires Distinct(keys) && forall k :: k in keys ==> k in contents
    ensures |keys| <= |contents|
  {
    if keys != [] {
      var last := keys[|keys| - 1];
      assert last in keys;
      DistinctWithin(keys[..|keys| - 1], contents - {last});
    }
  }

  /** Letting a content in never pushes another one out, so the histories stay aged and lose just one slot. */
  lemma AddedKeepsContents(f: Fifo<Uint64, EventAnnounce>, contents: set<Uint64>, h: Uint64, ann: EventAnnounce)
    requires ValidFifo(f, HISTORY_SIZE) && Aged(f.order, contents) && |contents| <= HISTORY_SIZE && h in contents
    ensures
      var g := Added(f, HISTORY_SIZE, h, ann);
      && ValidFifo(g, HISTORY_SIZE) && Aged(g.order, contents)
      && (forall c :: c in contents ==> (c in g.data <==> c in f.data || c == h))
  {
    AddedIsValid(f, HISTORY_SIZE, h, ann);
    if h !in f.data && HISTORY_SIZE <= |f.order| && f.order[0] in contents {
      DistinctWithin(f.order + [h], contents);
      assert false;
    }
  }

  lemma RemoveOne<T>(m: multiset<T>, x: T)
    requires x in m
    ensures |m - multiset{x}| == |m| - 1
  {
    assert m == (m - multiset{x}) + multiset{x};
  }

  lemma SameHistoriesSameSlots(cfg: Config, contents: set<Uint64>, nodes: map<NodeID, NodeState>, n: NodeID,
                               st: NodeState)
    requires nodes.Keys == cfg.nodes && n in cfg.nodes && st.chan.announced == nodes[n].chan.announced
    ensures Slots(cfg, contents, nodes[n := st]) == Slots(cfg, contents, nodes)
    ensures TameNodes(contents, nodes) ==> TameNodes(contents, nodes[n := st])
  {
  }

  lemma NodeKeepsTame(contents: set<Uint64>, nodes: map<NodeID, NodeState>, n: NodeID, st: NodeState)
    requires TameNodes(contents, nodes)
    requires ValidFifo(st.chan.announced, HISTORY_SIZE) && Aged(st.chan.announced.order, contents)
    ensures TameNodes(contents, nodes[n := st])
  {
  }

  lemma NewsTakesSlot(cfg: Config, contents: set<Uint64>, nodes: map<NodeID, NodeState>, n: NodeID, st: NodeState,
                      h: Uint64)
    requires nodes.Keys == cfg.nodes && n in cfg.nodes && h in contents
    requires h !in nodes[n].chan.announced.data
    requires forall c :: c in contents ==>
      (c in st.chan.announced.data <==> c in nodes[n].chan.announced.data || c == h)
    ensures |Slots(cfg, contents, nodes[n := st])| == |Slots(cfg, contents, nodes)| - 1
  {
    assert (n, h) in Slots(cfg, contents, nodes);
    assert Slots(cfg, contents, nodes[n := st]) == Slots(cfg, contents, nodes) - {(n, h)};
  }

  /** What delivering an announce does to each part of the measure. */
  lemma DeliverAnnounceSizes(s: State, p: AnnPacket)
    requires p in s.anns && p.dst in s.nodes
    ensures
      var st, s' := s.nodes[p.dst], AfterDeliverAnnounce(s, p);
      && s'.nodes == s.nodes[p.dst := st.(chan := Announced(st.chan, p.ev))]
      && |s'.anns| == |s.anns| - 1 && |s'.tickets| == |s.tickets| + (if IsNews(st.chan, p.ev) then 1 else 0)
      && s'.reqs == s.reqs && s'.msgs == s.msgs && s'.pending == s.pending
  {
    hide Announced, IsNews;
    RemoveOne(s.anns, p);
  }

  lemma DeliverAnnounceWeighsLess(cfg: Config, contents: set<Uint64>, s: State, p: AnnPacket)
    requires s.nodes.Keys == cfg.nodes && p.dst in cfg.nodes
    requires |contents| <= HISTORY_SIZE && TameNodes(contents, s.nodes)
    requires p in s.anns && p.ev.payload.hash in contents
    ensures TameNodes(contents, AfterDeliverAnnounce(s, p).nodes)
    ensures Measure(cfg, contents, AfterDeliverAnnounce(s, p)) < Measure(cfg, contents, s)
  {
    hide Weight, Slots, AfterDeliverAnnounce, Aged, ValidFifo;
    DeliverAnnounceSizes(s, p);
    var n := p.dst;
    var st := s.nodes[n];
    var st' := st.(chan := Announced(st.chan, p.ev));
    AddedKeepsContents(st.chan.announced, contents, p.ev.payload.hash, p.ev);
    NodeKeepsTame(contents, s.nodes, n, st');
    if IsNews(st.chan, p.ev) {
      NewsTakesSlot(cfg, contents, s.nodes, n, st', p.ev.payload.hash);
      TakeSlot(|cfg.nodes|, |Slots(cfg, contents, s.nodes)|, |s.tickets|, |s.reqs|, |s.msgs|, |s.pending|, |s.anns|);
    } else {
      SameHistoriesSameSlots(cfg, contents, s.nodes, n, st');
      DropAnnounce(|cfg.nodes|, |Slots(cfg, contents, s.nodes)|, |s.tickets|, |s.reqs|, |s.msgs|, |s.pending|,
                   |s.anns|);
    }
  }

  lemma DropAnnounce(d: nat, slots: nat, tickets: nat, reqs: nat, msgs: nat, pending: nat, anns: nat)
    requires 0 < anns
    ensures Weight(d, slots, tickets, reqs, msgs, pending, anns - 1)
          < Weight(d, slots, tickets, reqs, msgs, pending, anns)
  {
  }

  lemma TakeSlot(d: nat, slots: nat, tickets: nat, reqs: nat, msgs: nat, pending: nat, anns: nat)
    requires 0 < slots && 0 < anns
    ensures Weight(d, slots - 1, tickets + 1, reqs, msgs, pending, anns - 1)
          < Weight(d, slots, tickets, reqs, msgs, pending, anns)
  {
    Distribute(d + 3, slots - 1);
    Distribute(d + 3, tickets);
  }

  lemma Distribute(w: nat, k: nat)
    ensures w * (k + 1) == w * k + w
  {
  }

  lemma SpendTicket(d: nat, slots: nat, tickets: nat, reqs: nat, msgs: nat, pending: nat, anns: nat, more: nat)
    requires 0 < tickets && more <= 1
    ensures Weight(d, slots, tickets - 1, reqs + more, msgs, pending, anns)
          < Weight(d, slots, tickets, reqs, msgs, pending, anns)
  {
    Distribute(d + 3, tickets - 1);
    Distribute(d + 2, reqs);
  }

  lemma SpendRequest(d: nat, slots: nat, tickets: nat, reqs: nat, msgs: nat, pending: nat, anns: nat, more: nat)
    requires 0 < reqs && more <= 1
    ensures Weight(d, slots, tickets, reqs - 1, msgs + more, pending, anns)
          < Weight(d, slots, tickets, reqs, msgs, pending, anns)
  {
    Distribute(d + 2, reqs - 1);
    Distribute(d + 1, msgs);
  }

  lemma SpendMessage(d: nat, slots: nat, tickets: nat, reqs: nat, msgs: nat, pending: nat, anns: nat, more: nat)
    requires 0 < msgs && more <= 1
    ensures Weight(d, slots, tickets, reqs, msgs - 1, pending + more, anns)
          < Weight(d, slots, tickets, reqs, msgs, pending, anns)
  {
    Distribute(d + 1, msgs - 1);
    Distribute(d, pending);
  }

  lemma SpendPending(d: nat, slots: nat, tickets: nat, reqs: nat, msgs: nat, pending: nat, anns: nat, more: nat)
    requires 0 < pending && more < d
    ensures Weight(d, slots, tickets, reqs, msgs, pending - 1, anns + more)
          < Weight(d, slots, tickets, reqs, msgs, pending, anns)
  {
    Distribute(d, pending - 1);
  }

  lemma MessageKeepsHistory(st: NodeState, maxSize: Uint64, ev: EventMessage, raw: Bytes, stored: Option<Bytes>)
    ensures MessageHandled(st, maxSize, ev, raw, stored).chan.announced == st.chan.announced
  {
  }

  lemma InjectKeepsHistory(st: NodeState, n: NodeID, ev: EventMessage)
    ensures Injected(st, n, ev).chan.announced == st.chan.announced
  {
  }

  lemma HandleAnnounceWeighsLess(cfg: Config, contents: set<Uint64>, s: State, t: Ticket)
    requires s.nodes.Keys == cfg.nodes && t.node in cfg.nodes && TameNodes(contents, s.nodes) && t in s.tickets
    ensures TameNodes(contents, AfterHandleAnnounce(cfg, s, t).nodes)
    ensures Measure(cfg, contents, AfterHandleAnnounce(cfg, s, t)) < Measure(cfg, contents, s)
  {
    hide Weight, Slots, TameNodes, Requests;
    var s' := AfterHandleAnnounce(cfg, s, t);
    SameHistoriesSameSlots(cfg, contents, s.nodes, t.node, s'.nodes[t.node]);
    RemoveOne(s.tickets, t);
    assert |s.reqs| <= |s'.reqs| <= |s.reqs| + 1;
    SpendTicket(|cfg.nodes|, |Slots(cfg, contents, s.nodes)|, |s.tickets|, |s.reqs|, |s.msgs|, |s.pending|, |s.anns|,
                |s'.reqs| - |s.reqs|);
  }

  lemma ServeRequestWeighsLess(cfg: Config, contents: set<Uint64>, s: State, p: ReqPacket, file: Option<Bytes>)
    requires s.nodes.Keys == cfg.nodes && p in s.reqs
    ensures AfterServeRequest(s, p, file).nodes == s.nodes
    ensures Measure(cfg, contents, AfterServeRequest(s, p, file)) < Measure(cfg, contents, s)
  {
    hide Weight;
    var s' := AfterServeRequest(s, p, file);
    RemoveOne(s.reqs, p);
    assert |s.msgs| <= |s'.msgs| <= |s.msgs| + 1;
    SpendRequest(|cfg.nodes|, |Slots(cfg, contents, s.nodes)|, |s.tickets|, |s.reqs|, |s.msgs|, |s.pending|, |s.anns|,
                 |s'.msgs| - |s.msgs|);
  }

  lemma DeliverMessageWeighsLess(cfg: Config, contents: set<Uint64>, s: State, p: MsgPacket, stored: Option<Bytes>)
    requires s.nodes.Keys == cfg.nodes && p.dst in cfg.nodes && TameNodes(contents, s.nodes) && p in s.msgs
    ensures TameNodes(contents, AfterDeliverMessage(cfg, s, p, stored).nodes)
    ensures Measure(cfg, contents, AfterDeliverMessage(cfg, s, p, stored)) < Measure(cfg, contents, s)
  {
    hide Weight;
    hide MessageHandled, MessagePasses;
    var s' := AfterDeliverMessage(cfg, s, p, stored);
    MessageKeepsHistory(s.nodes[p.dst], cfg.Max(p.dst), p.ev, p.raw, stored);
    SameHistoriesSameSlots(cfg, contents, s.nodes, p.dst, s'.nodes[p.dst]);
    RemoveOne(s.msgs, p);
    assert |s.pending| <= |s'.pending| <= |s.pending| + 1;
    SpendMessage(|cfg.nodes|, |Slots(cfg, contents, s.nodes)|, |s.tickets|, |s.reqs|, |s.msgs|, |s.pending|, |s.anns|,
                 |s'.pending| - |s.pending|);
  }

  /** A broadcast reaches fewer nodes than there are. */
  lemma {:induction false} AnnouncementsAreFew(cfg: Config, n: NodeID, ev: EventMessage, to: set<NodeID>)
    ensures |set p | p in to :: AnnPacket(n, p, AnnounceAsReceived(AnnounceOf(ev)))| == |to|
    decreases |to|
  {
    if to != {} {
      var q :| q in to;
      AnnouncementsAreFew(cfg, n, ev, to - {q});
      assert (set p | p in to :: AnnPacket(n, p, AnnounceAsReceived(AnnounceOf(ev))))
        == (set p | p in to - {q} :: AnnPacket(n, p, AnnounceAsReceived(AnnounceOf(ev))))
           + {AnnPacket(n, q, AnnounceAsReceived(AnnounceOf(ev)))};
    }
  }

  lemma OneAnnouncementAPeer(cfg: Config, n: NodeID, ev: EventMessage)
    ensures |Announcements(cfg, n, ev)| == |cfg.Peers(n) - {ev.from}|
  {
    AnnouncementsAreFew(cfg, n, ev, cfg.Peers(n) - {ev.from});
  }

  lemma InjectWeighsLess(cfg: Config, contents: set<Uint64>, s: State, i: Pending)
    requires ValidConfig(cfg)
    requires s.nodes.Keys == cfg.nodes && i.node in cfg.nodes && TameNodes(contents, s.nodes) && i in s.pending
    ensures TameNodes(contents, AfterInject(cfg, s, i).nodes)
    ensures Measure(cfg, contents, AfterInject(cfg, s, i)) < Measure(cfg, contents, s)
  {
    hide Weight, Injected, Slots, Announcements, TameNodes;
    var s' := AfterInject(cfg, s, i);
    InjectKeepsHistory(s.nodes[i.node], i.node, i.ev);
    SameHistoriesSameSlots(cfg, contents, s.nodes, i.node, s'.nodes[i.node]);
    RemoveOne(s.pending, i);
    var to := cfg.Peers(i.node) - {i.ev.from};
    OneAnnouncementAPeer(cfg, i.node, i.ev);
    SubsetSize(to, cfg.nodes - {i.node});
    assert |cfg.nodes - {i.node}| == |cfg.nodes| - 1;
    var anns := Announcements(cfg, i.node, i.ev);
    assert |multiset(anns)| == |anns| && s'.anns == s.anns + multiset(anns);
    assert |s'.anns| == |s.anns| + |to|;
    SpendPending(|cfg.nodes|, |Slots(cfg, contents, s.nodes)|, |s.tickets|, |s.reqs|, |s.msgs|, |s.pending|,
                 |s.anns|, |to|);
  }

  lemma CopyWeighsLittle(cfg: Config, contents: set<Uint64>, s: State, n: NodeID, ev: EventMessage)
    requires s.nodes.Keys == cfg.nodes && n in cfg.nodes && TameNodes(contents, s.nodes)
    ensures TameNodes(contents, AfterCopy(cfg, s, n, ev).nodes)
    ensures Measure(cfg, contents, AfterCopy(cfg, s, n, ev)) ==
      Measure(cfg, contents, s) + if CopyPasses(s.nodes[n], ev) then |cfg.nodes| else 0
  {
    hide Slots, TameNodes;
    var s' := AfterCopy(cfg, s, n, ev);
    SameHistoriesSameSlots(cfg, contents, s.nodes, n, s'.nodes[n]);
    assert |s'.pending| == |s.pending| + if CopyPasses(s.nodes[n], ev) then 1 else 0;
    Distribute(|cfg.nodes|, |s.pending|);
  }

  lemma ExpireWeighsSame(cfg: Config, contents: set<Uint64>, s: State, n: NodeID, bID: MessageID)
    requires s.nodes.Keys == cfg.nodes && n in cfg.nodes && TameNodes(contents, s.nodes)
    ensures TameNodes(contents, AfterExpire(s, n, bID).nodes)
    ensures Measure(cfg, contents, AfterExpire(s, n, bID)) == Measure(cfg, contents, s)
  {
    SameHistoriesSameSlots(cfg, contents, s.nodes, n, AfterExpire(s, n, bID).nodes[n]);
  }

  lemma ReplyIsInPlay(cfg: Config, contents: set<Uint64>, s: State, p: ReqPacket, file: Option<Bytes>)
    requires Inv(cfg, s) && p in s.reqs && s.published[p.id].hash in contents
    ensures forall m :: m in Maybe(Answer(At(s, p.dst).chan, p, file)) ==> m.ev.payload.hash in contents
  {
    assert p.src in cfg.Peers(p.dst);
    assert GoodNode(s.published, p.dst, s.nodes[p.dst]) && !s.published[p.id].Zero();
  }

  lemma MessageIsInPlay(st: NodeState, maxSize: Uint64, p: MsgPacket, stored: Option<Bytes>)
    ensures forall i :: i in Maybe(Accepted(st, maxSize, p, stored)) ==> i.ev.payload.hash == p.ev.payload.hash
  {
  }

  lemma CopyKeepsInPlay(cfg: Config, contents: set<Uint64>, s: State, n: NodeID, u: Update, id: MessageID, now: Instant)
    requires InPlay(contents, s) && |u.data| < TWO64 && id !in s.published
    requires CopyPasses(At(s, n), CopyEvent(n, u, id, now)) ==> u.hash in contents
    ensures InPlay(contents, AfterCopy(cfg, s, n, CopyEvent(n, u, id, now)))
  {
    hide Copied, CopyPasses, IsNewCopy;
    assert CopyEvent(n, u, id, now).payload.id == id && CopyEvent(n, u, id, now).payload.hash == u.hash;
  }

  lemma HandleAnnounceKeepsInPlay(cfg: Config, contents: set<Uint64>, s: State, t: Ticket)
    requires InPlay(contents, s) && t in s.tickets && IsAnnounceFor(s.published, t.node, t.ev)
    ensures InPlay(contents, AfterHandleAnnounce(cfg, s, t))
  {
    hide Requests, AnnounceHandled;
  }

  lemma ServeRequestKeepsInPlay(cfg: Config, contents: set<Uint64>, s: State, p: ReqPacket, file: Option<Bytes>)
    requires Inv(cfg, s) && InPlay(contents, s) && p in s.reqs
    ensures InPlay(contents, AfterServeRequest(s, p, file))
  {
    hide Inv, Answer;
    ReplyIsInPlay(cfg, contents, s, p, file);
  }

  lemma DeliverMessageKeepsInPlay(cfg: Config, contents: set<Uint64>, s: State, p: MsgPacket, stored: Option<Bytes>)
    requires InPlay(contents, s) && p in s.msgs
    ensures InPlay(contents, AfterDeliverMessage(cfg, s, p, stored))
  {
    hide Accepted, MessageHandled;
    MessageIsInPlay(At(s, p.dst), cfg.Max(p.dst), p, stored);
  }

  lemma InjectKeepsInPlay(cfg: Config, contents: set<Uint64>, s: State, i: Pending)
    requires InPlay(contents, s) && i in s.pending
    ensures InPlay(contents, AfterInject(cfg, s, i))
  {
    assert forall p :: p in Announcements(cfg, i.node, i.ev) ==> p.ev.payload.hash == i.ev.payload.hash;
    hide Injected, Announcements;
  }

  lemma DeliverAnnounceKeepsInPlay(contents: set<Uint64>, s: State, p: AnnPacket)
    requires InPlay(contents, s) && p in s.anns
    ensures InPlay(contents, AfterDeliverAnnounce(s, p))
  {
    hide Announced, IsNews;
  }

  lemma ExpireKeepsInPlay(contents: set<Uint64>, s: State, n: NodeID, bID: MessageID)
    requires InPlay(contents, s)
    ensures InPlay(contents, AfterExpire(s, n, bID))
  {
  }

  lemma StepKeepsInPlay(cfg: Config, contents: set<Uint64>, s: State, step: Step)
    requires Inv(cfg, s) && InPlay(contents, s) && Enabled(cfg, s, step) && CopiesWithin(s, step, contents)
    ensures InPlay(contents, Apply(cfg, s, step))
  {
    hide CopyEvent, AfterDeliverAnnounce, AfterExpire, IsAnnounceFor;
    hide Inv, InPlay, AfterCopy, AfterHandleAnnounce, AfterServeRequest, AfterDeliverMessage, AfterInject;
    match step
    case Copy(n, u, id, now) => CopyKeepsInPlay(cfg, contents, s, n, u, id, now);
    case DeliverAnnounce(p) => DeliverAnnounceKeepsInPlay(contents, s, p);
    case HandleAnnounce(t) =>
      GoodTicketIsAnnounce(cfg, s, t);
      HandleAnnounceKeepsInPlay(cfg, contents, s, t);
    case ServeRequest(p, file) => ServeRequestKeepsInPlay(cfg, contents, s, p, file);
    case DeliverMessage(p, stored) => DeliverMessageKeepsInPlay(cfg, contents, s, p, stored);
    case Inject(i) => InjectKeepsInPlay(cfg, contents, s, i);
    case ExpireBatch(n, bID) => ExpireKeepsInPlay(contents, s, n, bID);
  }

  lemma GoodTicketIsAnnounce(cfg: Config, s: State, t: Ticket)
    requires Inv(cfg, s) && t in s.tickets
    ensures IsAnnounceFor(s.published, t.node, t.ev)
  {
  }

  /** Where everything in flight is. */
  lemma TrafficIsAtNodes(cfg: Config, s: State)
    requires Inv(cfg, s)
    ensures ValidConfig(cfg) && s.nodes.Keys == cfg.nodes
    ensures forall p :: p in s.anns ==> p.dst in cfg.nodes
    ensures forall t :: t in s.tickets ==> t.node in cfg.nodes
    ensures forall p :: p in s.msgs ==> p.dst in cfg.nodes
    ensures forall i :: i in s.pending ==> i.node in cfg.nodes
  {
    hide IsAnnounceFor, IsMessageFrom, IsHeld, GoodChan, GoodClip;
    forall p | p in s.anns ensures p.dst in cfg.nodes {
      assert p.src in cfg.Peers(p.dst);
    }
  }

  lemma DeliveredIsInPlay(contents: set<Uint64>, s: State)
    requires InPlay(contents, s)
    ensures forall p :: p in s.anns ==> p.ev.payload.hash in contents
  {
  }

  /** Every traffic step makes the measure smaller; a copy that passes makes it larger by the number of nodes. */
  lemma StepWeighs(cfg: Config, contents: set<Uint64>, s: State, step: Step)
    requires Tame(cfg, contents, s) && Enabled(cfg, s, step)
    ensures Apply(cfg, s, step).nodes.Keys == cfg.nodes == s.nodes.Keys
    ensures TameNodes(contents, Apply(cfg, s, step).nodes)
    ensures IsTraffic(step) ==> Measure(cfg, contents, Apply(cfg, s, step)) < Measure(cfg, contents, s)
    ensures !IsTraffic(step) ==>
      Measure(cfg, contents, Apply(cfg, s, step))
      == Measure(cfg, contents, s) + if Brings(s, step) then |cfg.nodes| else 0
  {
    hide CopyEvent, AfterExpire;
    hide AfterCopy, AfterDeliverAnnounce, AfterHandleAnnounce, AfterServeRequest, AfterDeliverMessage, AfterInject;
    hide Inv, InPlay, Measure, TameNodes, CopyPasses;
    TrafficIsAtNodes(cfg, s);
    StepKeepsGood(cfg, s, step);
    TrafficIsAtNodes(cfg, Apply(cfg, s, step));
    DeliveredIsInPlay(contents, s);
    match step
    case Copy(n, u, id, now) => CopyWeighsLittle(cfg, contents, s, n, CopyEvent(n, u, id, now));
    case DeliverAnnounce(p) => DeliverAnnounceWeighsLess(cfg, contents, s, p);
    case HandleAnnounce(t) => HandleAnnounceWeighsLess(cfg, contents, s, t);
    case ServeRequest(p, file) => ServeRequestWeighsLess(cfg, contents, s, p, file);
    case DeliverMessage(p, stored) => DeliverMessageWeighsLess(cfg, contents, s, p, stored);
    case Inject(i) => InjectWeighsLess(cfg, contents, s, i);
    case ExpireBatch(n, bID) => ExpireWeighsSame(cfg, contents, s, n, bID);
  }

  lemma StepIsTame(cfg: Config, contents: set<Uint64>, s: State, step: Step)
    requires Tame(cfg, contents, s) && Enabled(cfg, s, step) && CopiesWithin(s, step, contents)
    ensures Tame(cfg, contents, Apply(cfg, s, step))
  {
    hide Inv, InPlay, TameNodes, Apply, Enabled, CopiesWithin;
    StepWeighs(cfg, contents, s, step);
    StepKeepsGood(cfg, s, step);
    StepKeepsInPlay(cfg, contents, s, step);
  }

  function TrafficIn(steps: seq<Step>): nat {
    if steps == [] then 0 else (if IsTraffic(steps[0]) then 1 else 0) + TrafficIn(steps[1..])
  }

  /** The copies of a run that pass their node. */
  ghost function CopiesIn(cfg: Config, s: State, steps: seq<Step>): nat
    requires CanRun(cfg, s, steps)
    decreases |steps|
  {
    if steps == [] then 0 else
    (if Brings(s, steps[0]) then 1 else 0) + CopiesIn(cfg, Apply(cfg, s, steps[0]), steps[1..])
  }

  ghost predicate AllCopiesWithin(cfg: Config, s: State, steps: seq<Step>, contents: set<Uint64>)
    requires CanRun(cfg, s, steps)
    decreases |steps|
  {
    steps == [] ||
    (CopiesWithin(s, steps[0], contents) && AllCopiesWithin(cfg, Apply(cfg, s, steps[0]), steps[1..], contents))
  }

  /** One step on the account: what it spends and what a copy brings in. */
  lemma StepIsPaidFor(cfg: Config, contents: set<Uint64>, s: State, step: Step)
    requires Tame(cfg, contents, s) && Enabled(cfg, s, step) && CopiesWithin(s, step, contents)
    ensures Tame(cfg, contents, Apply(cfg, s, step))
    ensures Apply(cfg, s, step).nodes.Keys == cfg.nodes == s.nodes.Keys
    ensures (if IsTraffic(step) then 1 else 0) + Measure(cfg, contents, Apply(cfg, s, step))
         <= Measure(cfg, contents, s) + |cfg.nodes| * (if Brings(s, step) then 1 else 0)
  {
    hide Tame, Measure, Apply, Enabled, CopiesWithin, Brings;
    StepIsTame(cfg, contents, s, step);
    StepWeighs(cfg, contents, s, step);
    assert step.Copy? || !Brings(s, step) by { OnlyCopiesBring(s, step); }
  }

  lemma OnlyCopiesBring(s: State, step: Step)
    ensures Brings(s, step) ==> step.Copy?
  {
  }

  lemma AddUp(d: nat, first: nat, rest: nat, t: int, u: int, m0: int, m1: int, m2: int)
    requires t + m1 <= m0 + d * first && u + m2 <= m1 + d * rest
    ensures t + u + m2 <= m0 + d * (first + rest)
  {
    assert d * (first + rest) == d * first + d * rest;
  }

  /** The traffic of a run is bounded by where it starts and by how often something is copied. */
  lemma {:induction false} TrafficIsBounded(cfg: Config, contents: set<Uint64>, s: State, steps: seq<Step>)
    requires Tame(cfg, contents, s) && CanRun(cfg, s, steps) && AllCopiesWithin(cfg, s, steps, contents)
    ensures Tame(cfg, contents, Gossip.Run(cfg, s, steps))
    ensures Gossip.Run(cfg, s, steps).nodes.Keys == s.nodes.Keys == cfg.nodes
    ensures TrafficIn(steps) + Measure(cfg, contents, Gossip.Run(cfg, s, steps))
            <= Measure(cfg, contents, s) + |cfg.nodes| * CopiesIn(cfg, s, steps)
    decreases |steps|
  {
    hide Tame, Measure, Apply, Enabled, CopiesWithin, Brings;
    TameNodesAreThere(cfg, contents, s);
    if steps != [] {
      var next, end := Apply(cfg, s, steps[0]), Gossip.Run(cfg, s, steps);
      StepIsPaidFor(cfg, contents, s, steps[0]);
      TrafficIsBounded(cfg, contents, next, steps[1..]);
      AddUp(|cfg.nodes|, if Brings(s, steps[0]) then 1 else 0, CopiesIn(cfg, next, steps[1..]),
            if IsTraffic(steps[0]) then 1 else 0, TrafficIn(steps[1..]),
            Measure(cfg, contents, s), Measure(cfg, contents, next), Measure(cfg, contents, end));
    }
  }

  lemma TameNodesAreThere(cfg: Config, contents: set<Uint64>, s: State)
    requires Tame(cfg, contents, s)
    ensures s.nodes.Keys == cfg.nodes
  {
  }

  ghost function Row(n: NodeID, contents: set<Uint64>): set<(NodeID, Uint64)> {
    set h | h in contents :: (n, h)
  }

  ghost function Pairs(nodes: set<NodeID>, contents: set<Uint64>): set<(NodeID, Uint64)> {
    set n, h | n in nodes && h in contents :: (n, h)
  }

  lemma PairsWithout(nodes: set<NodeID>, contents: set<Uint64>, m: NodeID)
    requires m in nodes
    ensures |Pairs(nodes, contents)| == |Pairs(nodes - {m}, contents)| + |Row(m, contents)|
  {
    assert Pairs(nodes, contents) == Pairs(nodes - {m}, contents) + Row(m, contents);
    assert Pairs(nodes - {m}, contents) !! Row(m, contents);
  }

  lemma {:induction false} PairsAreFew(nodes: set<NodeID>, contents: set<Uint64>)
    ensures |Pairs(nodes, contents)| == |nodes| * |contents|
    decreases |nodes|
  {
    if nodes == {} {
      assert Pairs(nodes, contents) == {};
    } else {
      var m :| m in nodes;
      PairsAreFew(nodes - {m}, contents);
      RowIsFew(m, contents);
      PairsWithout(nodes, contents, m);
      hide Pairs, Row;
      Distribute(|contents|, |nodes - {m}|);
    }
  }

  lemma {:induction false} RowIsFew(n: NodeID, contents: set<Uint64>)
    ensures |Row(n, contents)| == |contents|
    decreases |contents|
  {
    if contents == {} {
      assert Row(n, contents) == {};
    } else {
      var c :| c in contents;
      RowIsFew(n, contents - {c});
      assert Row(n, contents) == Row(n, contents - {c}) + {(n, c)};
    }
  }

  lemma SlotsAreFew(cfg: Config, contents: set<Uint64>, nodes: map<NodeID, NodeState>)
    requires nodes.Keys == cfg.nodes
    ensures |Slots(cfg, contents, nodes)| <= |cfg.nodes| * |contents|
  {
    var slots, all := Slots(cfg, contents, nodes), Pairs(cfg.nodes, contents);
    PairsAreFew(cfg.nodes, contents);
    assert slots <= all;
    assert |all| == |slots| + |all - slots|;
  }

  /** From a quiet mesh, `k` copies of at most five contents that no history remembers cause at most
      (d + 3) * d * |contents| + d * k steps of traffic among d nodes. */
  lemma GossipTerminates(cfg: Config, contents: set<Uint64>, s: State, steps: seq<Step>)
    requires Inv(cfg, s) && Quiescent(s) && TameNodes(contents, s.nodes) && |contents| <= HISTORY_SIZE
    requires CanRun(cfg, s, steps) && AllCopiesWithin(cfg, s, steps, contents)
    ensures TrafficIn(steps)
         <= (|cfg.nodes| + 3) * (|cfg.nodes| * |contents|) + |cfg.nodes| * CopiesIn(cfg, s, steps)
  {
    hide Inv, TameNodes, CanRun, AllCopiesWithin, CopiesIn, TrafficIn, Slots;
    TrafficIsBounded(cfg, contents, s, steps);
    var t := Gossip.Run(cfg, s, steps);
    WeightIsNatural(|cfg.nodes|, |Slots(cfg, contents, t.nodes)|, |t.tickets|, |t.reqs|, |t.msgs|, |t.pending|,
                    |t.anns|);
    SlotsAreFew(cfg, contents, s.nodes);
    MulMonotone(|cfg.nodes| + 3, |Slots(cfg, contents, s.nodes)|, |cfg.nodes| * |contents|);
  }

  lemma MulMonotone(w: nat, a: nat, b: nat)
    requires a <= b
    ensures w * a <= w * b
  {
  }

  lemma NewMeshIsTame(cfg: Config, contents: set<Uint64>)
    requires ValidConfig(cfg) && |contents| <= HISTORY_SIZE
    ensures Tame(cfg, contents, Initial(cfg)) && Quiescent(Initial(cfg)) && OneTicketEach(Initial(cfg))
  {
    InitialIsGood(cfg);
  }

  /** In a mesh that starts empty and sees at most five contents, the traffic is bounded by the copies, and every
      node passes each content on at most once and asks for it at most once. */
  lemma NewMeshGoesQuiet(cfg: Config, contents: set<Uint64>, steps: seq<Step>, n: NodeID, h: Uint64)
    requires ValidConfig(cfg) && |contents| <= HISTORY_SIZE && h in contents
    requires CanRun(cfg, Initial(cfg), steps) && AllCopiesWithin(cfg, Initial(cfg), steps, contents)
    ensures TrafficIn(steps)
         <= (|cfg.nodes| + 3) * (|cfg.nodes| * |contents|) + |cfg.nodes| * CopiesIn(cfg, Initial(cfg), steps)
    ensures PassesIn(cfg, Initial(cfg), steps, n, h) <= 1 && AsksIn(cfg, Initial(cfg), steps, n, h) <= 1
  {
    hide CanRun, Inv, TameNodes, OneTicketEach, Quiescent, Remembers, Waits;
    NewMeshIsTame(cfg, contents);
    GossipTerminates(cfg, contents, Initial(cfg), steps);
    PassedAndAskedOnce(cfg, contents, Initial(cfg), steps, n, h);
  }

  /** A mesh at rest is the only one in which no traffic step can be taken. */
  lemma TrafficGoesOn(cfg: Config, s: State)
    ensures Quiescent(s) <==> !exists step :: IsTraffic(step) && Enabled(cfg, s, step)
  {
    if p :| p in s.anns {
      assert Enabled(cfg, s, DeliverAnnounce(p));
    } else if t :| t in s.tickets {
      assert Enabled(cfg, s, HandleAnnounce(t));
    } else if p :| p in s.reqs {
      assert Enabled(cfg, s, ServeRequest(p, None));
    } else if p :| p in s.msgs {
      assert Enabled(cfg, s, DeliverMessage(p, None));
    } else if i :| i in s.pending {
      assert Enabled(cfg, s, Inject(i));
    }
  }

  /** Whether `step` makes node `n` pass the announce of content `h`. */
  predicate Passes(s: State, step: Step, n: NodeID, h: Uint64) {
    step.DeliverAnnounce? && step.ann.dst == n && step.ann.ev.payload.hash == h && IsNews(At(s, n).chan, step.ann.ev)
  }

  /** Whether `step` makes node `n` send a request for content `h`. */
  predicate Asks(cfg: Config, s: State, step: Step, n: NodeID, h: Uint64) {
    && step.HandleAnnounce? && step.ticket.node == n && step.ticket.ev.payload.hash == h
    && Requests(At(s, n), cfg.Peers(n), cfg.Max(n), step.ticket.ev)
  }

  ghost function PassesIn(cfg: Config, s: State, steps: seq<Step>, n: NodeID, h: Uint64): nat
    requires CanRun(cfg, s, steps)
    decreases |steps|
  {
    if steps == [] then 0 else
    (if Passes(s, steps[0], n, h) then 1 else 0) + PassesIn(cfg, Apply(cfg, s, steps[0]), steps[1..], n, h)
  }

  ghost function AsksIn(cfg: Config, s: State, steps: seq<Step>, n: NodeID, h: Uint64): nat
    requires CanRun(cfg, s, steps)
    decreases |steps|
  {
    if steps == [] then 0 else
    (if Asks(cfg, s, steps[0], n, h) then 1 else 0) + AsksIn(cfg, Apply(cfg, s, steps[0]), steps[1..], n, h)
  }

  ghost predicate Waits(s: State, n: NodeID, h: Uint64) {
    exists t :: t in s.tickets && t.node == n && t.ev.payload.hash == h
  }

  /** At most one ticket for each node and content, and only for contents the node has let through. */
  ghost predicate OneTicketEach(s: State) {
    && (forall t :: t in s.tickets ==> s.tickets[t] == 1 && t.ev.payload.hash in At(s, t.node).chan.announced.data)
    && (forall t, u :: t in s.tickets && u in s.tickets ==>
          t == u || t.node != u.node || t.ev.payload.hash != u.ev.payload.hash)
  }

  ghost predicate Remembers(s: State, n: NodeID, h: Uint64) {
    h in At(s, n).chan.announced.data
  }

  ghost predicate SameFilters(s: State, t: State) {
    forall n :: At(t, n).chan.announced == At(s, n).chan.announced
  }

  lemma OneNodeSameFilters(s: State, t: State, n: NodeID, st: NodeState)
    requires t.nodes == s.nodes[n := st] && st.chan.announced == At(s, n).chan.announced
    ensures SameFilters(s, t)
  {
  }

  lemma HandleAnnounceKeepsFilters(cfg: Config, s: State, t: Ticket)
    ensures SameFilters(s, AfterHandleAnnounce(cfg, s, t))
  {
    OneNodeSameFilters(s, AfterHandleAnnounce(cfg, s, t), t.node,
                       AnnounceHandled(At(s, t.node), cfg.Peers(t.node), cfg.Max(t.node), t.ev));
  }

  lemma DeliverMessageKeepsFilters(cfg: Config, s: State, p: MsgPacket, stored: Option<Bytes>)
    ensures SameFilters(s, AfterDeliverMessage(cfg, s, p, stored))
  {
    hide MessageHandled;
    MessageKeepsHistory(At(s, p.dst), cfg.Max(p.dst), p.ev, p.raw, stored);
    OneNodeSameFilters(s, AfterDeliverMessage(cfg, s, p, stored), p.dst,
                       MessageHandled(At(s, p.dst), cfg.Max(p.dst), p.ev, p.raw, stored));
  }

  lemma InjectKeepsFilters(cfg: Config, s: State, i: Pending)
    ensures SameFilters(s, AfterInject(cfg, s, i))
  {
    hide Injected;
    InjectKeepsHistory(At(s, i.node), i.node, i.ev);
    OneNodeSameFilters(s, AfterInject(cfg, s, i), i.node, Injected(At(s, i.node), i.node, i.ev));
  }

  lemma CopyKeepsFilters(cfg: Config, s: State, n: NodeID, ev: EventMessage)
    ensures SameFilters(s, AfterCopy(cfg, s, n, ev))
  {
    OneNodeSameFilters(s, AfterCopy(cfg, s, n, ev), n, Copied(At(s, n), ev));
  }

  /** No step but the delivery of a new announce touches the filters, and tickets go only by being handled. */
  lemma OtherStepsKeepFilters(cfg: Config, s: State, step: Step)
    requires Enabled(cfg, s, step) && !step.DeliverAnnounce?
    ensures SameFilters(s, Apply(cfg, s, step))
    ensures Apply(cfg, s, step).tickets == if step.HandleAnnounce? then s.tickets - multiset{step.ticket} else s.tickets
  {
    hide MessageHandled, Injected;
    hide CopyEvent, SameFilters, At, Announcements, Answer, Accepted, Copied, CopyPasses, Requests, AnnounceHandled;
    match step
    case Copy(n, u, id, now) => CopyKeepsFilters(cfg, s, n, CopyEvent(n, u, id, now));
    case HandleAnnounce(t) => HandleAnnounceKeepsFilters(cfg, s, t);
    case ServeRequest(p, file) => SameNodesSameFilters(s, Apply(cfg, s, step));
    case DeliverMessage(p, stored) => DeliverMessageKeepsFilters(cfg, s, p, stored);
    case Inject(i) => InjectKeepsFilters(cfg, s, i);
    case ExpireBatch(n, bID) => ExpireKeepsFilters(s, n, bID);
  }

  lemma SameNodesSameFilters(s: State, t: State)
    requires t.nodes == s.nodes
    ensures SameFilters(s, t)
  {
  }

  lemma ExpireKeepsFilters(s: State, n: NodeID, bID: MessageID)
    ensures SameFilters(s, AfterExpire(s, n, bID))
  {
    OneNodeSameFilters(s, AfterExpire(s, n, bID), n, At(s, n).(batches := At(s, n).batches - {bID}));
  }

  /** What delivering the announce `p` does to the filters and the tickets. */
  ghost predicate TicketOpened(contents: set<Uint64>, s: State, p: AnnPacket, t: State) {
    var h := p.ev.payload.hash;
    && h in contents
    && (forall n, c :: c in contents ==> (Remembers(t, n, c) <==> Remembers(s, n, c) || (n == p.dst && c == h)))
    && t.tickets == if Remembers(s, p.dst, h) then s.tickets else s.tickets + multiset{Ticket(p.dst, p.ev)}
  }

  lemma FilterOpensTicket(contents: set<Uint64>, s: State, p: AnnPacket)
    requires |contents| <= HISTORY_SIZE && p.ev.payload.hash in contents
    requires ValidFifo(At(s, p.dst).chan.announced, HISTORY_SIZE) && Aged(At(s, p.dst).chan.announced.order, contents)
    ensures TicketOpened(contents, s, p, AfterDeliverAnnounce(s, p))
  {
    hide Added, ValidFifo, Aged;
    AddedKeepsContents(At(s, p.dst).chan.announced, contents, p.ev.payload.hash, p.ev);
    var s' := AfterDeliverAnnounce(s, p);
    assert forall n :: n != p.dst ==> At(s', n) == At(s, n);
  }

  lemma DeliverAnnounceOpensTicket(cfg: Config, contents: set<Uint64>, s: State, p: AnnPacket)
    requires Tame(cfg, contents, s) && p in s.anns
    ensures TicketOpened(contents, s, p, AfterDeliverAnnounce(s, p))
  {
    hide Inv, InPlay, AfterDeliverAnnounce, TicketOpened, ValidFifo, Aged;
    TrafficIsAtNodes(cfg, s);
    DeliveredIsInPlay(contents, s);
    FilterOpensTicket(contents, s, p);
  }

  lemma FewerTicketsStayOne(s: State, t: State)
    requires OneTicketEach(s) && t.tickets <= s.tickets && SameFilters(s, t)
    ensures OneTicketEach(t)
  {
    forall k | k in t.tickets
      ensures t.tickets[k] == 1 && k.ev.payload.hash in At(t, k.node).chan.announced.data
    {
      assert k in s.tickets && s.tickets[k] == 1;
    }
  }

  lemma MoreTicketsStayOne(s: State, t: State, added: Ticket)
    requires OneTicketEach(s) && t.tickets == s.tickets + multiset{added}
    requires !Remembers(s, added.node, added.ev.payload.hash) && Remembers(t, added.node, added.ev.payload.hash)
    requires forall k :: k in s.tickets ==> Remembers(t, k.node, k.ev.payload.hash)
    ensures OneTicketEach(t)
  {
    assert forall k :: k in t.tickets ==> k == added || k in s.tickets;
    assert added !in s.tickets;
  }

  lemma SameTicketsStayOne(s: State, t: State)
    requires OneTicketEach(s) && t.tickets == s.tickets
    requires forall k :: k in s.tickets ==> Remembers(t, k.node, k.ev.payload.hash)
    ensures OneTicketEach(t)
  {
  }

  lemma TicketsAreRemembered(contents: set<Uint64>, s: State)
    requires InPlay(contents, s) && OneTicketEach(s)
    ensures forall k :: k in s.tickets ==> k.ev.payload.hash in contents && Remembers(s, k.node, k.ev.payload.hash)
  {
  }

  lemma OpenedTicketStaysOne(contents: set<Uint64>, s: State, p: AnnPacket, t: State)
    requires OneTicketEach(s) && TicketOpened(contents, s, p, t)
    requires forall k :: k in s.tickets ==> k.ev.payload.hash in contents && Remembers(s, k.node, k.ev.payload.hash)
    ensures OneTicketEach(t)
  {
    hide Remembers, OneTicketEach;
    if Remembers(s, p.dst, p.ev.payload.hash) {
      SameTicketsStayOne(s, t);
    } else {
      MoreTicketsStayOne(s, t, Ticket(p.dst, p.ev));
    }
  }

  lemma NewTicketStaysOne(cfg: Config, contents: set<Uint64>, s: State, p: AnnPacket)
    requires Tame(cfg, contents, s) && OneTicketEach(s) && p in s.anns
    ensures OneTicketEach(AfterDeliverAnnounce(s, p))
  {
    TicketsAreRemembered(contents, s);
    DeliverAnnounceOpensTicket(cfg, contents, s, p);
    hide *;
    OpenedTicketStaysOne(contents, s, p, AfterDeliverAnnounce(s, p));
  }

  lemma StepKeepsOneTicketEach(cfg: Config, contents: set<Uint64>, s: State, step: Step)
    requires Tame(cfg, contents, s) && OneTicketEach(s) && Enabled(cfg, s, step)
    ensures OneTicketEach(Apply(cfg, s, step))
  {
    hide Inv, OneTicketEach, Remembers, TameNodes, InPlay, SameFilters;
    match step
    case DeliverAnnounce(p) => NewTicketStaysOne(cfg, contents, s, p);
    case _ =>
      OtherStepsKeepFilters(cfg, s, step);
      hide Apply;
      FewerTicketsStayOne(s, Apply(cfg, s, step));
  }

  /** In a run about at most five contents, no node passes a content on twice or asks for it twice. */
  lemma {:induction false} PassedAndAskedOnce(cfg: Config, contents: set<Uint64>, s: State, steps: seq<Step>,
                                              n: NodeID, h: Uint64)
    requires Tame(cfg, contents, s) && OneTicketEach(s) && h in contents
    requires CanRun(cfg, s, steps) && AllCopiesWithin(cfg, s, steps, contents)
    ensures PassesIn(cfg, s, steps, n, h) <= if Remembers(s, n, h) then 0 else 1
    ensures AsksIn(cfg, s, steps, n, h) <= if Remembers(s, n, h) && !Waits(s, n, h) then 0 else 1
    decreases |steps|
  {
    if steps != [] {
      var step := steps[0];
      StepIsTame(cfg, contents, s, step);
      StepKeepsOneTicketEach(cfg, contents, s, step);
      PassedAndAskedOnce(cfg, contents, Apply(cfg, s, step), steps[1..], n, h);
      StepSpends(cfg, contents, s, step, n, h);
    }
  }

  lemma DeliverAnnounceSpends(cfg: Config, contents: set<Uint64>, s: State, p: AnnPacket, n: NodeID, h: Uint64)
    requires Tame(cfg, contents, s) && h in contents && p in s.anns
    ensures
      var s' := AfterDeliverAnnounce(s, p);
      && (Remembers(s, n, h) ==> Remembers(s', n, h))
      && (Passes(s, DeliverAnnounce(p), n, h) ==> !Remembers(s, n, h) && Remembers(s', n, h))
      && (Remembers(s, n, h) && !Waits(s, n, h) ==> !Waits(s', n, h))
  {
    hide AfterDeliverAnnounce, Inv, TameNodes, InPlay;
    DeliverAnnounceOpensTicket(cfg, contents, s, p);
  }

  lemma OtherStepSpends(cfg: Config, s: State, step: Step, n: NodeID, h: Uint64)
    requires OneTicketEach(s) && Enabled(cfg, s, step) && !step.DeliverAnnounce?
    ensures
      var s' := Apply(cfg, s, step);
      && (Remembers(s, n, h) ==> Remembers(s', n, h))
      && (!Waits(s, n, h) ==> !Waits(s', n, h))
      && (Asks(cfg, s, step, n, h) ==> Waits(s, n, h) && Remembers(s', n, h) && !Waits(s', n, h))
  {
    hide Apply, Requests;
    OtherStepsKeepFilters(cfg, s, step);
    var s' := Apply(cfg, s, step);
    if Asks(cfg, s, step, n, h) {
      assert step.ticket !in s'.tickets;
      assert forall t :: t in s'.tickets ==> t in s.tickets;
    }
  }

  lemma StepSpends(cfg: Config, contents: set<Uint64>, s: State, step: Step, n: NodeID, h: Uint64)
    requires Tame(cfg, contents, s) && OneTicketEach(s) && h in contents && Enabled(cfg, s, step)
    ensures
      var s' := Apply(cfg, s, step);
      && (Remembers(s, n, h) ==> Remembers(s', n, h))
      && (Passes(s, step, n, h) ==> !Remembers(s, n, h) && Remembers(s', n, h))
      && (Remembers(s, n, h) && !Waits(s, n, h) ==> !Waits(s', n, h))
      && (Asks(cfg, s, step, n, h) ==> Waits(s, n, h) && Remembers(s', n, h) && !Waits(s', n, h))
  {
    hide Tame, OneTicketEach, Remembers, Waits;
    match step
    case DeliverAnnounce(p) =>
      DeliverAnnounceSpends(cfg, contents, s, p, n, h);
    case _ =>
      OtherStepSpends(cfg, s, step, n, h);
  }

  /** The histories of announces and of served files are well formed. */
  ghost predicate ValidFilters(s: State) {
    forall n ::
      ValidFifo(At(s, n).chan.announced, HISTORY_SIZE) && ValidFifo(At(s, n).chan.served, HISTORY_SIZE)
  }

  lemma {:induction false} RunKeepsFilters(cfg: Config, s: State, steps: seq<Step>)
    requires ValidFilters(s) && CanRun(cfg, s, steps)
    ensures ValidFilters(Gossip.Run(cfg, s, steps))
    decreases |steps|
  {
    hide ValidFilters, Apply, Enabled;
    if steps != [] {
      StepKeepsFilters(cfg, s, steps[0]);
      RunKeepsFilters(cfg, Apply(cfg, s, steps[0]), steps[1..]);
    }
  }

  lemma StepKeepsFilters(cfg: Config, s: State, step: Step)
    requires ValidFilters(s) && Enabled(cfg, s, step)
    ensures ValidFilters(Apply(cfg, s, step))
  {
    hide Apply, Enabled, ValidFifo;
    forall n
      ensures ValidFifo(At(Apply(cfg, s, step), n).chan.announced, HISTORY_SIZE)
      ensures ValidFifo(At(Apply(cfg, s, step), n).chan.served, HISTORY_SIZE)
    {
      assert ValidFifo(At(s, n).chan.announced, HISTORY_SIZE) && ValidFifo(At(s, n).chan.served, HISTORY_SIZE);
      StepKeepsFilter(cfg, s, step, n);
      StepKeepsServed(cfg, s, step, n);
    }
  }

  lemma StepKeepsFilter(cfg: Config, s: State, step: Step, n: NodeID)
    requires Enabled(cfg, s, step) && ValidFifo(At(s, n).chan.announced, HISTORY_SIZE)
    ensures ValidFifo(At(Apply(cfg, s, step), n).chan.announced, HISTORY_SIZE)
  {
    hide ValidFifo, Added, AfterDeliverAnnounce;
    match step
    case DeliverAnnounce(p) =>
      NodeAfterDeliverAnnounce(s, p, n);
      AddedIsValid(At(s, n).chan.announced, HISTORY_SIZE, p.ev.payload.hash, p.ev);
    case _ =>
      OtherStepsKeepFilters(cfg, s, step);
      hide Apply;
  }

  lemma SentKeepsServed(c: Chan, msg: EventMessage)
    requires ValidFifo(c.served, HISTORY_SIZE)
    ensures ValidFifo(Sent(c, msg).served, HISTORY_SIZE)
  {
    AddedIsValid(c.served, HISTORY_SIZE, msg.payload.id, msg);
    hide Added, ValidFifo;
  }

  lemma StepKeepsServed(cfg: Config, s: State, step: Step, n: NodeID)
    requires Enabled(cfg, s, step) && ValidFifo(At(s, n).chan.served, HISTORY_SIZE)
    ensures ValidFifo(At(Apply(cfg, s, step), n).chan.served, HISTORY_SIZE)
  {
    hide ValidFifo, Added, At, CopyEvent, IsNewCopy, Sent, Requests, Batch.Ready, Intake;
    hide AfterCopy, AfterDeliverAnnounce, AfterHandleAnnounce, AfterServeRequest, AfterDeliverMessage, AfterInject,
      AfterExpire;
    match step
    case Copy(m, u, id, now) =>
      NodeAfterCopy(cfg, s, m, CopyEvent(m, u, id, now), n);
      SentKeepsServed(At(s, n).chan, CopyEvent(m, u, id, now));
    case DeliverAnnounce(p) => NodeAfterDeliverAnnounce(s, p, n);
    case HandleAnnounce(t) => NodeAfterHandleAnnounce(cfg, s, t, n);
    case ServeRequest(p, file) => NodeAfterServeRequest(s, p, file, n);
    case DeliverMessage(p, stored) =>
      NodeAfterDeliverMessage(cfg, s, p, stored, n);
      var data := Intake(cfg.Max(n), p.ev.payload, p.raw, stored);
      if data.Some? {
        SentKeepsServed(At(s, n).chan, WithData(p.ev, data.value));
      }
    case Inject(i) => NodeAfterInject(cfg, s, i, n);
    case ExpireBatch(m, bID) => NodeAfterExpire(s, m, bID, n);
  }
}
