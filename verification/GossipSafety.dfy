/** What every reachable state of the mesh satisfies: requests go to the author, messages come from it,
    nobody is sent its own copy, and what is written to a clipboard is what the author published. */
module GossipSafety {
  import opened Wrappers
  import opened Machine
  import opened Domain
  import opened Channel
  import opened Batch
  import opened Node
  import opened Gossip

  /** `m` is the published message of its id, as another node gets it: mime normalised,
      inline data unchanged. The data of a file is the path it was stored under. */
  predicate IsRemoteCopy(pub: map<MessageID, Message>, m: Message) {
    m.id in pub &&
    var o := pub[m.id];
    m.(data := o.data) == o.(mime := NormalMime(o.mime)) && (!IsPath(m.mime) ==> m.data == o.data)
  }

  /** `ev` is a published message as node `n` holds it. */
  predicate IsHeld(pub: map<MessageID, Message>, n: NodeID, ev: EventMessage) {
    && ev.payload.id in pub
    && ev.from == Author(ev.payload.id)
    && (if ev.from == n then ev.payload == pub[ev.payload.id] else IsRemoteCopy(pub, ev.payload))
  }

  /** `ev` announces a published message, to a node other than its author. */
  predicate IsAnnounceFor(pub: map<MessageID, Message>, n: NodeID, ev: EventAnnounce) {
    && ev.payload.id in pub
    && ev.from == Author(ev.payload.id) != n
    && ev.payload == pub[ev.payload.id].ToAnnounce().(mime := NormalMime(pub[ev.payload.id].mime))
  }

  /** A message on its way from its author: a published message without its data, and the raw bytes. */
  predicate IsMessageFrom(pub: map<MessageID, Message>, p: MsgPacket) {
    && p.ev.payload.id in pub
    && p.ev.from == Author(p.ev.payload.id) == p.src
    && p.ev.payload == pub[p.ev.payload.id].(data := [], mime := NormalMime(pub[p.ev.payload.id].mime))
    && (!IsPath(p.ev.payload.mime) ==> p.raw == pub[p.ev.payload.id].data)
  }

  ghost predicate GoodPublished(cfg: Config, pub: map<MessageID, Message>) {
    forall id :: id in pub ==>
      && Author(id) in cfg.nodes && pub[id].id == id && !pub[id].Zero()
      && (!IsPath(pub[id].mime) ==> |pub[id].data| == pub[id].length)
  }

  ghost predicate GoodChan(pub: map<MessageID, Message>, n: NodeID, c: Chan) {
    && (c.last == ZERO_EVENT || IsHeld(pub, n, c.last))
    && (forall id :: id in c.served.data ==> c.served.data[id].payload.id == id && IsHeld(pub, n, c.served.data[id]))
    && (forall h :: h in c.announced.data ==> c.announced.data[h].payload.id in pub)
  }

  /** `data` is what node `n` has of the part `id` of batch `k`: what another node published, where it is stored, or
      nothing. */
  predicate IsPartOf(pub: map<MessageID, Message>, n: NodeID, k: MessageID, id: MessageID, data: Bytes) {
    && id in pub && Author(id) != n && pub[id].batchID == k
    && (data == [] || IsPath(NormalMime(pub[id].mime)) || data == pub[id].data)
  }

  /** Parts of batch `k`, of which one says that `total` are to come. */
  ghost predicate AreParts(pub: map<MessageID, Message>, n: NodeID, k: MessageID, b: BatchState) {
    && (forall id :: id in b.items ==> IsPartOf(pub, n, k, id, b.items[id]))
    && (exists id :: id in b.items && pub[id].batchTotal == b.total)
  }

  ghost predicate GoodBatches(pub: map<MessageID, Message>, n: NodeID, batches: Batches) {
    forall k :: k in batches ==> AreParts(pub, n, k, batches[k])
  }

  /** `w` is the join of the parts of a full batch, and has the kind of one of them. */
  ghost predicate IsJoinOf(pub: map<MessageID, Message>, n: NodeID, w: ClipWrite, b: BatchState) {
    && w.Batched? && AreParts(pub, n, w.batchID, b) && Complete(b) && w.data == Joined(b.items)
    && (exists id :: id in b.items && w.mime == NormalMime(pub[id].mime))
  }

  /** What is on the clipboard was published elsewhere: a message under its id, a batch part by part. */
  ghost predicate GoodWrite(pub: map<MessageID, Message>, n: NodeID, w: ClipWrite) {
    match w
    case Whole(msg) => IsRemoteCopy(pub, msg) && Author(msg.id) != n
    case Batched(_, _, _) => exists b :: IsJoinOf(pub, n, w, b)
  }

  ghost predicate GoodClip(pub: map<MessageID, Message>, n: NodeID, clip: seq<ClipWrite>) {
    forall w :: w in clip ==> GoodWrite(pub, n, w)
  }

  ghost predicate GoodNode(pub: map<MessageID, Message>, n: NodeID, st: NodeState) {
    GoodChan(pub, n, st.chan) && GoodBatches(pub, n, st.batches) && GoodClip(pub, n, st.clip)
  }

  ghost predicate GoodNodes(cfg: Config, pub: map<MessageID, Message>, nodes: map<NodeID, NodeState>) {
    && nodes.Keys == cfg.nodes
    && (forall n :: n in nodes ==> GoodNode(pub, n, nodes[n]))
  }

  ghost predicate GoodAnns(cfg: Config, pub: map<MessageID, Message>, anns: multiset<AnnPacket>) {
    forall p :: p in anns ==> p.src in cfg.Peers(p.dst) && IsAnnounceFor(pub, p.dst, p.ev)
  }

  ghost predicate GoodTickets(cfg: Config, pub: map<MessageID, Message>, tickets: multiset<Ticket>) {
    forall t :: t in tickets ==> t.node in cfg.nodes && IsAnnounceFor(pub, t.node, t.ev)
  }

  /** Every request is addressed to the author of its id, by a peer. */
  ghost predicate GoodReqs(cfg: Config, pub: map<MessageID, Message>, reqs: multiset<ReqPacket>) {
    forall p :: p in reqs ==> p.id in pub && p.dst == Author(p.id) && p.src in cfg.Peers(p.dst)
  }

  /** Every message travels from its author to a peer. */
  ghost predicate GoodMsgs(cfg: Config, pub: map<MessageID, Message>, msgs: multiset<MsgPacket>) {
    forall p :: p in msgs ==> IsMessageFrom(pub, p) && p.dst in cfg.Peers(p.src)
  }

  ghost predicate GoodPending(cfg: Config, pub: map<MessageID, Message>, pending: multiset<Pending>) {
    forall i :: i in pending ==> i.node in cfg.nodes && IsHeld(pub, i.node, i.ev)
  }

  ghost predicate Inv(cfg: Config, s: State) {
    && ValidConfig(cfg)
    && GoodPublished(cfg, s.published)
    && GoodNodes(cfg, s.published, s.nodes)
    && GoodAnns(cfg, s.published, s.anns)
    && GoodTickets(cfg, s.published, s.tickets)
    && GoodReqs(cfg, s.published, s.reqs)
    && GoodMsgs(cfg, s.published, s.msgs)
    && GoodPending(cfg, s.published, s.pending)
  }

  lemma InitialIsGood(cfg: Config)
    requires ValidConfig(cfg)
    ensures Inv(cfg, Initial(cfg))
  {
  }

  lemma SentIsGood(pub: map<MessageID, Message>, n: NodeID, c: Chan, ev: EventMessage)
    requires GoodChan(pub, n, c) && IsHeld(pub, n, ev)
    ensures GoodChan(pub, n, Sent(c, ev))
  {
  }

  /** `later` has everything that `pub` has. */
  ghost predicate Extends(pub: map<MessageID, Message>, later: map<MessageID, Message>) {
    forall id :: id in pub ==> id in later && later[id] == pub[id]
  }

  lemma ExtendKeepsParts(pub: map<MessageID, Message>, later: map<MessageID, Message>, n: NodeID, k: MessageID,
                         b: BatchState)
    requires Extends(pub, later) && AreParts(pub, n, k, b)
    ensures AreParts(later, n, k, b)
  {
    var id :| id in b.items && pub[id].batchTotal == b.total;
    assert IsPartOf(pub, n, k, id, b.items[id]) && later[id].batchTotal == b.total;
  }

  lemma ExtendKeepsWrite(pub: map<MessageID, Message>, later: map<MessageID, Message>, n: NodeID, w: ClipWrite)
    requires Extends(pub, later) && GoodWrite(pub, n, w)
    ensures GoodWrite(later, n, w)
  {
    if w.Batched? {
      var b :| IsJoinOf(pub, n, w, b);
      ExtendKeepsParts(pub, later, n, w.batchID, b);
      var id :| id in b.items && w.mime == NormalMime(pub[id].mime);
      assert IsPartOf(pub, n, w.batchID, id, b.items[id]) && later[id] == pub[id];
      hide Joined, Complete;
      assert IsJoinOf(later, n, w, b);
    }
  }

  lemma ExtendKeepsNode(pub: map<MessageID, Message>, later: map<MessageID, Message>, n: NodeID, st: NodeState)
    requires Extends(pub, later) && GoodNode(pub, n, st)
    ensures GoodNode(later, n, st)
  {
    hide AreParts, GoodWrite;
    forall k | k in st.batches ensures AreParts(later, n, k, st.batches[k]) {
      ExtendKeepsParts(pub, later, n, k, st.batches[k]);
    }
    forall w | w in st.clip ensures GoodWrite(later, n, w) {
      ExtendKeepsWrite(pub, later, n, w);
    }
  }

  lemma ExtendKeepsNodes(cfg: Config, pub: map<MessageID, Message>, later: map<MessageID, Message>,
                         nodes: map<NodeID, NodeState>)
    requires Extends(pub, later) && GoodNodes(cfg, pub, nodes)
    ensures GoodNodes(cfg, later, nodes)
  {
    hide GoodNode, Extends;
    forall n | n in nodes ensures GoodNode(later, n, nodes[n]) {
      ExtendKeepsNode(pub, later, n, nodes[n]);
    }
  }

  lemma ExtendKeepsTraffic(cfg: Config, s: State, later: map<MessageID, Message>)
    requires Extends(s.published, later)
    ensures GoodAnns(cfg, s.published, s.anns) ==> GoodAnns(cfg, later, s.anns)
    ensures GoodTickets(cfg, s.published, s.tickets) ==> GoodTickets(cfg, later, s.tickets)
    ensures GoodReqs(cfg, s.published, s.reqs) ==> GoodReqs(cfg, later, s.reqs)
    ensures GoodMsgs(cfg, s.published, s.msgs) ==> GoodMsgs(cfg, later, s.msgs)
    ensures GoodPending(cfg, s.published, s.pending) ==> GoodPending(cfg, later, s.pending)
  {
  }

  /** Publishing one more message under a new id disturbs nothing. */
  lemma PublishKeepsGood(cfg: Config, s: State, m: Message)
    requires Inv(cfg, s) && m.id !in s.published && Author(m.id) in cfg.nodes && !m.Zero()
    requires !IsPath(m.mime) ==> |m.data| == m.length
    ensures Inv(cfg, s.(published := s.published[m.id := m]))
  {
    var later := s.published[m.id := m];
    assert GoodPublished(cfg, later);
    ExtendKeepsNodes(cfg, s.published, later, s.nodes);
    ExtendKeepsTraffic(cfg, s, later);
  }

  lemma UpdateKeepsNodes(cfg: Config, pub: map<MessageID, Message>, nodes: map<NodeID, NodeState>, n: NodeID,
                         st: NodeState)
    requires GoodNodes(cfg, pub, nodes) && n in cfg.nodes && GoodNode(pub, n, st)
    ensures GoodNodes(cfg, pub, nodes[n := st])
  {
    hide GoodNode;
  }

  /** A batch that takes in a part of its own is still made of its parts. */
  lemma WithItemIsParts(pub: map<MessageID, Message>, n: NodeID, b: Batches, msg: Message)
    requires GoodBatches(pub, n, b) && IsPartOf(pub, n, msg.batchID, msg.id, msg.data)
    requires msg.batchTotal == pub[msg.id].batchTotal
    ensures AreParts(pub, n, msg.batchID, WithItem(b, msg)) && msg.id in WithItem(b, msg).items
  {
    if msg.batchID in b {
      var s := b[msg.batchID];
      assert AreParts(pub, n, msg.batchID, s);
      var id :| id in s.items && pub[id].batchTotal == s.total;
      assert id in WithItem(b, msg).items;
    } else {
      assert msg.id in WithItem(b, msg).items;
    }
  }

  lemma CollectedIsGood(pub: map<MessageID, Message>, n: NodeID, b: Batches, msg: Message)
    requires GoodBatches(pub, n, b) && IsPartOf(pub, n, msg.batchID, msg.id, msg.data)
    requires msg.batchTotal == pub[msg.id].batchTotal
    ensures GoodBatches(pub, n, Collected(b, msg))
  {
    hide AreParts, Complete, IsPartOf;
    WithItemIsParts(pub, n, b, msg);
  }

  lemma RefusedIsGood(pub: map<MessageID, Message>, n: NodeID, b: Batches, msg: Message)
    requires GoodBatches(pub, n, b) && msg.id in pub && Author(msg.id) != n
    requires msg.batchID == pub[msg.id].batchID && msg.batchTotal == pub[msg.id].batchTotal
    ensures GoodBatches(pub, n, Refused(b, msg))
  {
    hide GoodBatches, Collected;
    if msg.batchID != 0 {
      CollectedIsGood(pub, n, b, msg.(data := []));
    }
  }

  /** What a full batch is written as. */
  lemma ReadyIsJoin(pub: map<MessageID, Message>, n: NodeID, b: Batches, msg: Message)
    requires GoodBatches(pub, n, b) && IsPartOf(pub, n, msg.batchID, msg.id, msg.data)
    requires msg.batchTotal == pub[msg.id].batchTotal && msg.mime == NormalMime(pub[msg.id].mime)
    requires Ready(b, msg).Some?
    ensures GoodWrite(pub, n, Batched(msg.batchID, msg.mime, Ready(b, msg).value))
  {
    hide AreParts, Complete, IsPartOf, GoodBatches;
    WithItemIsParts(pub, n, b, msg);
    assert IsJoinOf(pub, n, Batched(msg.batchID, msg.mime, Ready(b, msg).value), WithItem(b, msg));
  }

  lemma CopyEventIs(n: NodeID, u: Update, id: MessageID, now: Instant)
    requires |u.data| < TWO64
    ensures var ev := CopyEvent(n, u, id, now);
      ev.from == n && ev.payload.id == id && (!IsPath(ev.payload.mime) ==> |ev.payload.data| == ev.payload.length)
  {
  }

  /** A new copy takes its place in a mesh that knows of it. */
  lemma PublishedCopyKeepsGood(cfg: Config, s: State, n: NodeID, ev: EventMessage)
    requires Inv(cfg, s) && n in cfg.nodes && IsHeld(s.published, n, ev)
    ensures Inv(cfg, s.(nodes := s.nodes[n := s.nodes[n].(current := ev.payload, chan := Sent(s.nodes[n].chan, ev))],
                        pending := s.pending + One(CopyPasses(s.nodes[n], ev), Pending(n, ev))))
  {
    hide GoodPublished, GoodAnns, GoodTickets, GoodReqs, GoodMsgs, GoodChan, GoodBatches, GoodClip, IsHeld, CopyPasses,
      Sent;
    var st := s.nodes[n];
    assert GoodNode(s.published, n, st);
    SentIsGood(s.published, n, st.chan, ev);
    UpdateKeepsNodes(cfg, s.published, s.nodes, n, st.(current := ev.payload, chan := Sent(st.chan, ev)));
  }

  lemma CopyKeepsGood(cfg: Config, s: State, n: NodeID, u: Update, id: MessageID, now: Instant)
    requires Inv(cfg, s) && n in cfg.nodes && |u.data| < TWO64 && Author(id) == n && id !in s.published
    ensures Inv(cfg, AfterCopy(cfg, s, n, CopyEvent(n, u, id, now)))
  {
    hide Inv, CopyEvent, Sent, Accepts;
    var ev := CopyEvent(n, u, id, now);
    CopyEventIs(n, u, id, now);
    assert n in s.nodes by { NodesAreThere(cfg, s); }
    if IsNewCopy(s.nodes[n], ev.payload) {
      PublishKeepsGood(cfg, s, ev.payload);
      PublishedCopyKeepsGood(cfg, s.(published := s.published[id := ev.payload]), n, ev);
    } else {
      assert s.nodes[n := s.nodes[n]] == s.nodes && s.pending + multiset{} == s.pending;
      assert AfterCopy(cfg, s, n, ev) == s;
    }
  }

  lemma NodesAreThere(cfg: Config, s: State)
    requires Inv(cfg, s)
    ensures s.nodes.Keys == cfg.nodes
  {
  }

  lemma AnnouncedIsGood(pub: map<MessageID, Message>, n: NodeID, st: NodeState, ann: EventAnnounce)
    requires GoodNode(pub, n, st) && IsAnnounceFor(pub, n, ann)
    ensures GoodNode(pub, n, st.(chan := Announced(st.chan, ann)))
  {
    hide GoodBatches, GoodClip, IsHeld;
  }

  lemma DeliverAnnounceKeepsGood(cfg: Config, s: State, p: AnnPacket)
    requires Inv(cfg, s) && p in s.anns
    ensures Inv(cfg, AfterDeliverAnnounce(s, p))
  {
    hide GoodNode, Announced, IsAnnounceFor, IsNews, GoodPublished, GoodReqs, GoodMsgs, GoodPending;
    assert p.src in cfg.Peers(p.dst);
    var st := s.nodes[p.dst];
    AnnouncedIsGood(s.published, p.dst, st, p.ev);
    UpdateKeepsNodes(cfg, s.published, s.nodes, p.dst, st.(chan := Announced(st.chan, p.ev)));
    var s' := AfterDeliverAnnounce(s, p);
    assert GoodAnns(cfg, s.published, s'.anns);
    assert GoodTickets(cfg, s.published, s'.tickets);
  }

  lemma AnnounceHandledIsGood(pub: map<MessageID, Message>, n: NodeID, st: NodeState, peers: set<NodeID>,
                              maxSize: Uint64, ann: EventAnnounce)
    requires GoodNode(pub, n, st) && IsAnnounceFor(pub, n, ann)
    ensures GoodNode(pub, n, AnnounceHandled(st, peers, maxSize, ann))
  {
    hide GoodChan, GoodBatches, GoodClip, Refused;
    RefusedIsGood(pub, n, st.batches, NackOf(ann.payload));
  }

  lemma HandleAnnounceKeepsGood(cfg: Config, s: State, t: Ticket)
    requires Inv(cfg, s) && t in s.tickets
    ensures Inv(cfg, AfterHandleAnnounce(cfg, s, t))
  {
    hide GoodPublished, GoodAnns, GoodMsgs, GoodPending, GoodNode, AnnounceHandled;
    var pub, st := s.published, s.nodes[t.node];
    AnnounceHandledIsGood(pub, t.node, st, cfg.Peers(t.node), cfg.Max(t.node), t.ev);
    UpdateKeepsNodes(cfg, pub, s.nodes, t.node, AnnounceHandled(st, cfg.Peers(t.node), cfg.Max(t.node), t.ev));
    var s' := AfterHandleAnnounce(cfg, s, t);
    assert GoodTickets(cfg, pub, s'.tickets);
    assert GoodReqs(cfg, pub, s'.reqs);
  }

  lemma AnswerIsGood(cfg: Config, pub: map<MessageID, Message>, c: Chan, p: ReqPacket, file: Option<Bytes>)
    requires GoodPublished(cfg, pub) && GoodChan(pub, p.dst, c)
    requires p.id in pub && p.dst == Author(p.id)
    ensures forall m :: m in Maybe(Answer(c, p, file)) ==> IsMessageFrom(pub, m) && m.src == p.dst && m.dst == p.src
  {
    assert !pub[p.id].Zero();
  }

  lemma ServeRequestKeepsGood(cfg: Config, s: State, p: ReqPacket, file: Option<Bytes>)
    requires Inv(cfg, s) && p in s.reqs
    ensures Inv(cfg, AfterServeRequest(s, p, file))
  {
    hide GoodPublished, GoodAnns, GoodTickets, GoodPending, GoodChan, GoodBatches, GoodClip, IsMessageFrom, Answer;
    assert GoodNode(s.published, p.dst, s.nodes[p.dst]);
    AnswerIsGood(cfg, s.published, s.nodes[p.dst].chan, p, file);
    var s' := AfterServeRequest(s, p, file);
    assert GoodReqs(cfg, s.published, s'.reqs);
    assert GoodMsgs(cfg, s.published, s'.msgs);
  }

  /** What a node takes in of a good message is its copy of the published one. */
  lemma IntakeIsHeld(pub: map<MessageID, Message>, p: MsgPacket, maxSize: Uint64, stored: Option<Bytes>)
    requires IsMessageFrom(pub, p) && p.dst != p.src
    requires !IsPath(pub[p.ev.payload.id].mime) ==> |pub[p.ev.payload.id].data| == pub[p.ev.payload.id].length
    requires Intake(maxSize, p.ev.payload, p.raw, stored).Some?
    ensures IsHeld(pub, p.dst, WithData(p.ev, Intake(maxSize, p.ev.payload, p.raw, stored).value))
  {
    var o := pub[p.ev.payload.id];
    if !IsPath(p.ev.payload.mime) {
      assert p.raw[..o.length] == o.data;
    }
  }

  lemma MessageHandledIsGood(pub: map<MessageID, Message>, st: NodeState, p: MsgPacket, maxSize: Uint64,
                             stored: Option<Bytes>)
    requires IsMessageFrom(pub, p) && p.dst != p.src && GoodNode(pub, p.dst, st)
    requires !IsPath(pub[p.ev.payload.id].mime) ==> |pub[p.ev.payload.id].data| == pub[p.ev.payload.id].length
    ensures GoodNode(pub, p.dst, MessageHandled(st, maxSize, p.ev, p.raw, stored))
    ensures forall i :: i in Maybe(Accepted(st, maxSize, p, stored)) ==> i.node == p.dst && IsHeld(pub, i.node, i.ev)
  {
    hide GoodChan, GoodBatches, GoodClip, Refused, Sent, Accepts, IsHeld, Intake;
    var data := Intake(maxSize, p.ev.payload, p.raw, stored);
    if data.None? {
      RefusedIsGood(pub, p.dst, st.batches, p.ev.payload);
    } else {
      IntakeIsHeld(pub, p, maxSize, stored);
      SentIsGood(pub, p.dst, st.chan, WithData(p.ev, data.value));
    }
  }

  lemma DeliverMessageKeepsGood(cfg: Config, s: State, p: MsgPacket, stored: Option<Bytes>)
    requires Inv(cfg, s) && p in s.msgs
    ensures Inv(cfg, AfterDeliverMessage(cfg, s, p, stored))
  {
    hide GoodAnns, GoodTickets, GoodReqs, GoodNode, IsHeld, MessageHandled, Accepted;
    assert p.dst in cfg.nodes && p.dst != p.src;
    var pub, st := s.published, s.nodes[p.dst];
    MessageHandledIsGood(pub, st, p, cfg.Max(p.dst), stored);
    UpdateKeepsNodes(cfg, pub, s.nodes, p.dst, MessageHandled(st, cfg.Max(p.dst), p.ev, p.raw, stored));
    var s' := AfterDeliverMessage(cfg, s, p, stored);
    assert GoodMsgs(cfg, pub, s'.msgs);
    assert GoodPending(cfg, pub, s'.pending);
  }

  lemma AnnouncementsAreGood(cfg: Config, pub: map<MessageID, Message>, i: Pending)
    requires ValidConfig(cfg) && GoodPublished(cfg, pub) && IsHeld(pub, i.node, i.ev)
    ensures forall p :: p in Announcements(cfg, i.node, i.ev) ==>
      p.src in cfg.Peers(p.dst) && IsAnnounceFor(pub, p.dst, p.ev)
  {
  }

  lemma InjectedIsGood(pub: map<MessageID, Message>, st: NodeState, i: Pending)
    requires IsHeld(pub, i.node, i.ev) && GoodNode(pub, i.node, st)
    ensures GoodNode(pub, i.node, Injected(st, i.node, i.ev))
  {
    hide GoodChan, GoodBatches, Ready, Collected, IsJoinOf;
    var msg := i.ev.payload;
    if i.ev.from != i.node && IsBatched(msg) {
      CollectedIsGood(pub, i.node, st.batches, msg);
      if Ready(st.batches, msg).Some? {
        ReadyIsJoin(pub, i.node, st.batches, msg);
      }
    }
  }

  lemma InjectKeepsGood(cfg: Config, s: State, i: Pending)
    requires Inv(cfg, s) && i in s.pending
    ensures Inv(cfg, AfterInject(cfg, s, i))
  {
    hide GoodNode, IsHeld, Injected, Announcements;
    var pub, st := s.published, s.nodes[i.node];
    InjectedIsGood(pub, st, i);
    UpdateKeepsNodes(cfg, pub, s.nodes, i.node, Injected(st, i.node, i.ev));
    AnnouncementsAreGood(cfg, pub, i);
    var s' := AfterInject(cfg, s, i);
    assert GoodAnns(cfg, pub, s'.anns);
    assert GoodPending(cfg, pub, s'.pending);
  }

  lemma ExpireKeepsGood(cfg: Config, s: State, n: NodeID, bID: MessageID)
    requires Inv(cfg, s) && n in cfg.nodes
    ensures Inv(cfg, AfterExpire(s, n, bID))
  {
    hide GoodPublished, GoodAnns, GoodTickets, GoodReqs, GoodMsgs, GoodPending, GoodChan, GoodClip, AreParts;
    assert GoodNode(s.published, n, s.nodes[n]);
    UpdateKeepsNodes(cfg, s.published, s.nodes, n, s.nodes[n].(batches := s.nodes[n].batches - {bID}));
  }

  lemma StepKeepsGood(cfg: Config, s: State, step: Step)
    requires Inv(cfg, s) && Enabled(cfg, s, step)
    ensures Inv(cfg, Apply(cfg, s, step))
  {
    hide Inv, AfterCopy, AfterDeliverAnnounce, AfterHandleAnnounce, AfterServeRequest, AfterDeliverMessage,
      AfterInject, AfterExpire;
    match step
    case Copy(n, u, id, now) => CopyKeepsGood(cfg, s, n, u, id, now);
    case DeliverAnnounce(p) => DeliverAnnounceKeepsGood(cfg, s, p);
    case HandleAnnounce(t) => HandleAnnounceKeepsGood(cfg, s, t);
    case ServeRequest(p, file) => ServeRequestKeepsGood(cfg, s, p, file);
    case DeliverMessage(p, stored) => DeliverMessageKeepsGood(cfg, s, p, stored);
    case Inject(i) => InjectKeepsGood(cfg, s, i);
    case ExpireBatch(n, bID) => ExpireKeepsGood(cfg, s, n, bID);
  }

  /** The invariant holds in every state that any run reaches. */
  lemma {:induction false} RunKeepsGood(cfg: Config, s: State, steps: seq<Step>)
    requires Inv(cfg, s) && CanRun(cfg, s, steps)
    ensures Inv(cfg, Gossip.Run(cfg, s, steps))
    decreases |steps|
  {
    if steps != [] {
      StepKeepsGood(cfg, s, steps[0]);
      RunKeepsGood(cfg, Apply(cfg, s, steps[0]), steps[1..]);
    }
  }

  /** `w` was written to the clipboard of `n`: another node published it, and inline data is as published. A batch is
      the sorted join of as many parts as one of them says, none of them by `n`, each with its published inline data,
      with the path it is stored at, or empty. */
  ghost predicate IsAuthentic(pub: map<MessageID, Message>, n: NodeID, w: ClipWrite) {
    match w
    case Whole(msg) =>
      && msg.id in pub && Author(msg.id) != n
      && msg.mime == NormalMime(pub[msg.id].mime)
      && (!IsPath(msg.mime) ==> msg.data == pub[msg.id].data)
    case Batched(_, _, _) => exists b :: IsJoinOf(pub, n, w, b)
  }

  lemma GoodWriteIsAuthentic(pub: map<MessageID, Message>, n: NodeID, w: ClipWrite)
    requires GoodWrite(pub, n, w)
    ensures IsAuthentic(pub, n, w)
  {
    hide IsJoinOf;
  }

  /** Nobody asks, answers or announces to the wrong node. */
  ghost predicate WellAddressed(s: State) {
    && (forall p :: p in s.reqs ==> p.dst == Author(p.id) != p.src)
    && (forall p :: p in s.msgs ==> p.src == Author(p.ev.payload.id) != p.dst)
    && (forall p :: p in s.anns ==> Author(p.ev.payload.id) != p.dst)
  }

  ghost predicate AuthenticClipboards(s: State) {
    forall n :: n in s.nodes ==> forall w :: w in s.nodes[n].clip ==> IsAuthentic(s.published, n, w)
  }

  lemma GoodTrafficIsWellAddressed(cfg: Config, s: State)
    requires ValidConfig(cfg) && GoodReqs(cfg, s.published, s.reqs)
    requires GoodMsgs(cfg, s.published, s.msgs) && GoodAnns(cfg, s.published, s.anns)
    ensures WellAddressed(s)
  {
    forall p | p in s.reqs
      ensures p.dst == Author(p.id) != p.src
    {
      assert p.src in cfg.Peers(p.dst);
    }
  }

  lemma GoodNodesAreAuthentic(cfg: Config, s: State)
    requires GoodNodes(cfg, s.published, s.nodes)
    ensures AuthenticClipboards(s)
  {
    hide IsAuthentic, GoodWrite;
    forall n, w | n in s.nodes && w in s.nodes[n].clip ensures IsAuthentic(s.published, n, w) {
      assert GoodNode(s.published, n, s.nodes[n]);
      GoodWriteIsAuthentic(s.published, n, w);
    }
  }

  /** The guarantees of the invariant, in every state that the mesh can reach. */
  lemma EveryReachableState(cfg: Config, steps: seq<Step>)
    requires ValidConfig(cfg) && CanRun(cfg, Initial(cfg), steps)
    ensures WellAddressed(Gossip.Run(cfg, Initial(cfg), steps))
    ensures AuthenticClipboards(Gossip.Run(cfg, Initial(cfg), steps))
  {
    InitialIsGood(cfg);
    RunKeepsGood(cfg, Initial(cfg), steps);
    GoodTrafficIsWellAddressed(cfg, Gossip.Run(cfg, Initial(cfg), steps));
    GoodNodesAreAuthentic(cfg, Gossip.Run(cfg, Initial(cfg), steps));
  }
}
