/** The mesh as a transition system: nodes, and everything in flight between and inside them.
    In-flight events are kept as their receivers decode them. Links are reliable and unordered,
    the topology is fixed, and a step is one atomic piece of a handler. */
module Gossip {
  import opened Wrappers
  import opened Machine
  import opened Domain
  import opened Channel
  import opened Node

  datatype Config = Config(nodes: set<NodeID>, peers: map<NodeID, set<NodeID>>, maxSize: map<NodeID, Uint64>) {
    function Peers(n: NodeID): set<NodeID> {
      if n in peers then peers[n] else {}
    }

    function Max(n: NodeID): Uint64 {
      if n in maxSize then maxSize[n] else 0
    }
  }

  /** Node ids fit the ten author bits; links are two-way, and none leads to the node itself. */
  ghost predicate ValidConfig(cfg: Config) {
    && cfg.peers.Keys == cfg.nodes
    && (forall n :: n in cfg.nodes ==> 0 <= n < 1024 && cfg.Peers(n) <= cfg.nodes - {n})
    && (forall n, p :: p in cfg.Peers(n) ==> n in cfg.Peers(p))
  }

  /** An announce on its way from `src` to `dst`. */
  datatype AnnPacket = AnnPacket(src: NodeID, dst: NodeID, ev: EventAnnounce)
  /** A request for the message `id`. Its sender and time are not read by anyone. */
  datatype ReqPacket = ReqPacket(src: NodeID, dst: NodeID, id: MessageID)
  datatype MsgPacket = MsgPacket(src: NodeID, dst: NodeID, ev: EventMessage, raw: Bytes)
  /** An announce that passed the filter of `node` and waits for its handler. */
  datatype Ticket = Ticket(node: NodeID, ev: EventAnnounce)
  /** A message that passed the channel of `node` and waits for its monitor. */
  datatype Pending = Pending(node: NodeID, ev: EventMessage)

  /** `published` is a history variable: the copies that nodes have put into their channels, by id. */
  datatype State = State(
    nodes: map<NodeID, NodeState>,
    anns: multiset<AnnPacket>,
    tickets: multiset<Ticket>,
    reqs: multiset<ReqPacket>,
    msgs: multiset<MsgPacket>,
    pending: multiset<Pending>,
    published: map<MessageID, Message>)

  datatype Step =
    | Copy(n: NodeID, u: Update, id: MessageID, now: Instant)
    | DeliverAnnounce(ann: AnnPacket)
    | HandleAnnounce(ticket: Ticket)
    | ServeRequest(req: ReqPacket, file: Option<Bytes>)
    | DeliverMessage(msg: MsgPacket, stored: Option<Bytes>)
    | Inject(item: Pending)
    | ExpireBatch(at: NodeID, bID: MessageID)

  function Initial(cfg: Config): State {
    State(map n | n in cfg.nodes :: NEW_NODE, multiset{}, multiset{}, multiset{}, multiset{}, multiset{}, map[])
  }

  function At(s: State, n: NodeID): NodeState {
    if n in s.nodes then s.nodes[n] else NEW_NODE
  }

  function One<T>(condition: bool, x: T): multiset<T> {
    if condition then multiset{x} else multiset{}
  }

  function Maybe<T>(o: Option<T>): multiset<T> {
    match o
    case None => multiset{}
    case Some(x) => multiset{x}
  }

  function CopyEvent(n: NodeID, u: Update, id: MessageID, now: Instant): EventMessage
    requires |u.data| < TWO64
  {
    Event(n, now, MessageFromUpdate(u, id))
  }

  /** Node `n` copies `ev` to its clipboard. */
  function AfterCopy(cfg: Config, s: State, n: NodeID, ev: EventMessage): State {
    var st := At(s, n);
    s.(nodes := s.nodes[n := Copied(st, ev)],
       pending := s.pending + One(CopyPasses(st, ev), Pending(n, ev)),
       published := if IsNewCopy(st, ev.payload) then s.published[ev.payload.id := ev.payload] else s.published)
  }

  function AfterDeliverAnnounce(s: State, p: AnnPacket): State {
    var st := At(s, p.dst);
    s.(nodes := s.nodes[p.dst := st.(chan := Announced(st.chan, p.ev))],
       anns := s.anns - multiset{p},
       tickets := s.tickets + One(IsNews(st.chan, p.ev), Ticket(p.dst, p.ev)))
  }

  function AfterHandleAnnounce(cfg: Config, s: State, t: Ticket): State {
    var st := At(s, t.node);
    s.(nodes := s.nodes[t.node := AnnounceHandled(st, cfg.Peers(t.node), cfg.Max(t.node), t.ev)],
       tickets := s.tickets - multiset{t},
       reqs := s.reqs + One(Requests(st, cfg.Peers(t.node), cfg.Max(t.node), t.ev),
                            ReqPacket(t.node, t.ev.from, t.ev.payload.id)))
  }

  /** What the request `p` is answered with. */
  function Answer(c: Chan, p: ReqPacket, file: Option<Bytes>): Option<MsgPacket> {
    match Reply(c, p.id, file)
    case None => None
    case Some((ev, raw)) => Some(MsgPacket(p.dst, p.src, AsReceived(ev), raw))
  }

  function AfterServeRequest(s: State, p: ReqPacket, file: Option<Bytes>): State {
    s.(reqs := s.reqs - multiset{p},
       msgs := s.msgs + Maybe(Answer(At(s, p.dst).chan, p, file)))
  }

  function Accepted(st: NodeState, maxSize: Uint64, p: MsgPacket, stored: Option<Bytes>): Option<Pending> {
    match MessagePasses(st, maxSize, p.ev, p.raw, stored)
    case None => None
    case Some(ev) => Some(Pending(p.dst, ev))
  }

  function AfterDeliverMessage(cfg: Config, s: State, p: MsgPacket, stored: Option<Bytes>): State {
    var st := At(s, p.dst);
    s.(nodes := s.nodes[p.dst := MessageHandled(st, cfg.Max(p.dst), p.ev, p.raw, stored)],
       msgs := s.msgs - multiset{p},
       pending := s.pending + Maybe(Accepted(st, cfg.Max(p.dst), p, stored)))
  }

  /** The packets of one broadcast. */
  function Announcements(cfg: Config, n: NodeID, ev: EventMessage): set<AnnPacket> {
    set p | p in cfg.Peers(n) - {ev.from} :: AnnPacket(n, p, AnnounceAsReceived(AnnounceOf(ev)))
  }

  /** What is announced: the time and the description of the message, its kind as it comes off the wire, from the author
      of its id. */
  lemma AnnouncementsAre(cfg: Config, n: NodeID, ev: EventMessage, p: AnnPacket)
    requires p in Announcements(cfg, n, ev)
    ensures
      var m := ev.payload;
      && p.src == n && p.dst in cfg.Peers(n) && p.dst != ev.from
      && p.ev == Event(m.id / 4096 % 1024, ev.created,
                       Announce(m.id, NormalMime(m.mime), m.hash, m.length, m.batchID, m.batchTotal))
  {
  }

  ghost function AfterInject(cfg: Config, s: State, i: Pending): State {
    s.(nodes := s.nodes[i.node := Injected(At(s, i.node), i.node, i.ev)],
       pending := s.pending - multiset{i},
       anns := s.anns + multiset(Announcements(cfg, i.node, i.ev)))
  }

  function AfterExpire(s: State, n: NodeID, bID: MessageID): State {
    s.(nodes := s.nodes[n := At(s, n).(batches := At(s, n).batches - {bID})])
  }

  // A step touches one node at most.

  lemma OneNodeChanges(s: State, t: State, n: NodeID, m: NodeID, st: NodeState)
    requires t.nodes == s.nodes[m := st]
    ensures At(t, n) == if n == m then st else At(s, n)
  {
  }

  lemma NodeAfterCopy(cfg: Config, s: State, m: NodeID, ev: EventMessage, n: NodeID)
    ensures At(AfterCopy(cfg, s, m, ev), n) == if n == m then Copied(At(s, m), ev) else At(s, n)
  {
    hide Copied, At;
    OneNodeChanges(s, AfterCopy(cfg, s, m, ev), n, m, Copied(At(s, m), ev));
  }

  lemma NodeAfterDeliverAnnounce(s: State, p: AnnPacket, n: NodeID)
    ensures At(AfterDeliverAnnounce(s, p), n) ==
      if n == p.dst then At(s, n).(chan := Announced(At(s, n).chan, p.ev)) else At(s, n)
  {
    hide Announced, At;
    OneNodeChanges(s, AfterDeliverAnnounce(s, p), n, p.dst, At(s, p.dst).(chan := Announced(At(s, p.dst).chan, p.ev)));
  }

  lemma NodeAfterHandleAnnounce(cfg: Config, s: State, t: Ticket, n: NodeID)
    ensures At(AfterHandleAnnounce(cfg, s, t), n) ==
      if n == t.node then AnnounceHandled(At(s, n), cfg.Peers(n), cfg.Max(n), t.ev) else At(s, n)
  {
    hide AnnounceHandled, At;
    OneNodeChanges(s, AfterHandleAnnounce(cfg, s, t), n, t.node,
                   AnnounceHandled(At(s, t.node), cfg.Peers(t.node), cfg.Max(t.node), t.ev));
  }

  lemma NodeAfterServeRequest(s: State, p: ReqPacket, file: Option<Bytes>, n: NodeID)
    ensures At(AfterServeRequest(s, p, file), n) == At(s, n)
  {
  }

  lemma NodeAfterDeliverMessage(cfg: Config, s: State, p: MsgPacket, stored: Option<Bytes>, n: NodeID)
    ensures At(AfterDeliverMessage(cfg, s, p, stored), n) ==
      if n == p.dst then MessageHandled(At(s, n), cfg.Max(n), p.ev, p.raw, stored) else At(s, n)
  {
    hide MessageHandled, At;
    OneNodeChanges(s, AfterDeliverMessage(cfg, s, p, stored), n, p.dst,
                   MessageHandled(At(s, p.dst), cfg.Max(p.dst), p.ev, p.raw, stored));
  }

  lemma NodeAfterInject(cfg: Config, s: State, i: Pending, n: NodeID)
    ensures At(AfterInject(cfg, s, i), n) == if n == i.node then Injected(At(s, n), n, i.ev) else At(s, n)
  {
    hide Injected, At;
    OneNodeChanges(s, AfterInject(cfg, s, i), n, i.node, Injected(At(s, i.node), i.node, i.ev));
  }

  lemma NodeAfterExpire(s: State, m: NodeID, bID: MessageID, n: NodeID)
    ensures At(AfterExpire(s, m, bID), n) ==
      if n == m then At(s, n).(batches := At(s, n).batches - {bID}) else At(s, n)
  {
    hide At;
    OneNodeChanges(s, AfterExpire(s, m, bID), n, m, At(s, m).(batches := At(s, m).batches - {bID}));
  }

  /** A request for a file that is gone when it is served is used up, and nothing is sent for it. */
  lemma GoneFileIsNotSent(s: State, p: ReqPacket)
    requires Lookup(At(s, p.dst).chan, p.id).Some? && Lookup(At(s, p.dst).chan, p.id).value.payload.mime == MIME_PATH
    ensures AfterServeRequest(s, p, None) == s.(reqs := s.reqs - multiset{p})
  {
    hide At, Lookup;
    assert s.msgs + multiset{} == s.msgs;
  }

  /** When a step can be taken. A new message id carries its node's bits and has not been used. */
  predicate Enabled(cfg: Config, s: State, step: Step) {
    match step
    case Copy(n, u, id, _) => n in cfg.nodes && |u.data| < TWO64 && Author(id) == n && id !in s.published
    case DeliverAnnounce(p) => p in s.anns
    case HandleAnnounce(t) => t in s.tickets
    case ServeRequest(p, _) => p in s.reqs
    case DeliverMessage(p, _) => p in s.msgs
    case Inject(i) => i in s.pending
    case ExpireBatch(n, _) => n in cfg.nodes
  }

  ghost function Apply(cfg: Config, s: State, step: Step): State
    requires Enabled(cfg, s, step)
  {
    match step
    case Copy(n, u, id, now) => AfterCopy(cfg, s, n, CopyEvent(n, u, id, now))
    case DeliverAnnounce(p) => AfterDeliverAnnounce(s, p)
    case HandleAnnounce(t) => AfterHandleAnnounce(cfg, s, t)
    case ServeRequest(p, file) => AfterServeRequest(s, p, file)
    case DeliverMessage(p, stored) => AfterDeliverMessage(cfg, s, p, stored)
    case Inject(i) => AfterInject(cfg, s, i)
    case ExpireBatch(n, bID) => AfterExpire(s, n, bID)
  }

  /** `steps` can be taken one after the other from `s`. */
  ghost predicate CanRun(cfg: Config, s: State, steps: seq<Step>)
    decreases |steps|
  {
    steps == [] || (Enabled(cfg, s, steps[0]) && CanRun(cfg, Apply(cfg, s, steps[0]), steps[1..]))
  }

  ghost function Run(cfg: Config, s: State, steps: seq<Step>): State
    requires CanRun(cfg, s, steps)
    decreases |steps|
  {
    if steps == [] then s else Run(cfg, Apply(cfg, s, steps[0]), steps[1..])
  }

  ghost predicate Quiescent(s: State) {
    && s.anns == multiset{} && s.tickets == multiset{} && s.reqs == multiset{}
    && s.msgs == multiset{} && s.pending == multiset{}
  }
}
