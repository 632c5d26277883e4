/** One inline copy, followed from a quiet mesh until the mesh is quiet again: every peer of its author that
    wants it has written it to its clipboard exactly once, and no other node has. */
module GossipDelivery {
  import opened Wrappers
  import opened Collections
  import opened Machine
  import opened Domain
  import opened Channel
  import opened History
  import opened Node
  import opened Gossip
  import opened GossipSafety
  import opened GossipTermination

  /** The event `ev` copied at the node `author` when the mesh is in the state `start`. */
  datatype Scene = Scene(cfg: Config, start: State, author: NodeID, ev: EventMessage) {
    function Announcement(): EventAnnounce {
      AnnounceAsReceived(AnnounceOf(ev))
    }

    /** The event as a peer holds it. */
    function Arrived(): EventMessage {
      WithData(AsReceived(ev), ev.payload.data)
    }

    function TicketAt(n: NodeID): Ticket {
      Ticket(n, Announcement())
    }

    function RequestBy(n: NodeID): ReqPacket {
      ReqPacket(n, author, ev.payload.id)
    }

    function MessageTo(n: NodeID): MsgPacket {
      MsgPacket(author, n, AsReceived(ev), ev.payload.data)
    }

    function ArrivedAt(n: NodeID): Pending {
      Pending(n, Arrived())
    }

    /** Whether node `n` is not too small for the copy, has not let its content through and does not hold it. */
    predicate Wants(n: NodeID) {
      && ev.payload.hash !in At(start, n).chan.announced.data
      && ev.payload.length <= cfg.Max(n)
      && At(start, n).chan.last.payload.hash != ev.payload.hash
    }

    predicate Receives(n: NodeID) {
      n in cfg.Peers(author) && Wants(n)
    }
  }

  /** A text or image copy outside a batch that passes the watcher and the channel of its node, made at rest. */
  ghost predicate IsScene(sc: Scene) {
    && Quiescent(sc.start) && sc.author in sc.cfg.nodes
    && sc.ev.from == sc.author == Author(sc.ev.payload.id)
    && sc.ev.payload.id !in sc.start.published
    && !IsPath(NormalMime(sc.ev.payload.mime)) && !IsBatched(sc.ev.payload)
    && |sc.ev.payload.data| == sc.ev.payload.length
    && CopyPasses(At(sc.start, sc.author), sc.ev)
  }

  ghost predicate ValidScene(sc: Scene) {
    Inv(sc.cfg, sc.start) && IsScene(sc)
  }

  /** What is on its way to or inside node `n`: a ticket, a request, a message or a pending write. */
  function Tokens(sc: Scene, s: State, n: NodeID): nat {
    s.tickets[sc.TicketAt(n)] + s.reqs[sc.RequestBy(n)] + s.msgs[sc.MessageTo(n)] + s.pending[sc.ArrivedAt(n)]
  }

  predicate Heard(sc: Scene, st: NodeState) {
    sc.ev.payload.hash in st.chan.announced.data
  }

  /** A peer that wants the copy: one token from the moment it has heard of it until the copy is written. */
  predicate IsReceiver(sc: Scene, s: State, n: NodeID) {
    var st, st0 := At(s, n), At(sc.start, n);
    var written := st.clip == st0.clip + [Whole(sc.Arrived().payload)];
    && (written || st.clip == st0.clip)
    && Tokens(sc, s, n) + (if written then 1 else 0) == (if Heard(sc, st) then 1 else 0)
    && st.chan.last == (if written || 0 < s.pending[sc.ArrivedAt(n)] then sc.Arrived() else st0.chan.last)
  }

  /** Any other node may hear of the copy, but does not ask for it. */
  predicate IsBystander(sc: Scene, s: State, n: NodeID) {
    var st, st0 := At(s, n), At(sc.start, n);
    && st.clip == st0.clip && st.chan.last == st0.chan.last
    && s.reqs[sc.RequestBy(n)] == s.msgs[sc.MessageTo(n)] == s.pending[sc.ArrivedAt(n)] == 0
    && (Heard(sc, st0) ==> Heard(sc, st) && s.tickets[sc.TicketAt(n)] == 0)
  }

  predicate IsAuthor(sc: Scene, s: State) {
    var st := At(s, sc.author);
    && st.clip == At(sc.start, sc.author).clip && st.chan.last == sc.ev
    && s.tickets[sc.TicketAt(sc.author)] == s.reqs[sc.RequestBy(sc.author)] == s.msgs[sc.MessageTo(sc.author)] == 0
  }

  ghost predicate NodeFollows(sc: Scene, s: State, n: NodeID) {
    if n == sc.author then IsAuthor(sc, s)
    else if sc.Receives(n) then IsReceiver(sc, s, n)
    else IsBystander(sc, s, n)
  }

  /** Everything in flight is about the copy. */
  ghost predicate TrafficFollows(sc: Scene, s: State) {
    && (forall p :: p in s.anns ==> p.ev == sc.Announcement() && p.dst != sc.author)
    && (forall t :: t in s.tickets ==> t == sc.TicketAt(t.node))
    && (forall p :: p in s.reqs ==> p == sc.RequestBy(p.src))
    && (forall p :: p in s.msgs ==> p == sc.MessageTo(p.dst))
    && (forall i :: i in s.pending ==> if i.node == sc.author then i.ev == sc.ev else i == sc.ArrivedAt(i.node))
  }

  /** No peer of the author is forgotten: it has heard of the copy, is being told, or is about to be. */
  ghost predicate NobodyForgotten(sc: Scene, s: State) {
    forall n :: n in sc.cfg.Peers(sc.author) ==>
      || Heard(sc, At(s, n))
      || AnnPacket(sc.author, n, sc.Announcement()) in s.anns
      || Pending(sc.author, sc.ev) in s.pending
  }

  ghost predicate Follows(sc: Scene, s: State) {
    && (forall n :: NodeFollows(sc, s, n))
    && TrafficFollows(sc, s) && NobodyForgotten(sc, s)
  }

  /** Nobody holds a message under the new id when it is made. */
  lemma IdIsNew(sc: Scene, n: NodeID)
    requires ValidScene(sc)
    ensures At(sc.start, n).chan.last.payload.id != sc.ev.payload.id
  {
    if n in sc.start.nodes {
      assert GoodNode(sc.start.published, n, sc.start.nodes[n]);
    }
  }

  /** What the scene says of its messages. */
  lemma SceneFacts(sc: Scene)
    requires ValidScene(sc)
    ensures ValidConfig(sc.cfg) && !sc.ev.payload.Zero() && !IsPath(sc.ev.payload.mime)
    ensures AnnounceAsReceived(AnnounceOf(sc.ev)) == AnnounceAsReceived(AnnounceOf(sc.Arrived())) == sc.Announcement()
    ensures sc.ev.from == sc.Announcement().from == sc.Arrived().from == sc.author
    ensures sc.author !in sc.cfg.Peers(sc.author)
    ensures !IsPath(sc.Arrived().payload.mime) && !IsBatched(sc.Arrived().payload)
  {
  }

  lemma CopyStartsAt(sc: Scene, s: State, n: NodeID)
    requires ValidScene(sc) && s == AfterCopy(sc.cfg, sc.start, sc.author, sc.ev)
    ensures NodeFollows(sc, s, n)
  {
    hide Inv;
    assert s.pending == multiset{Pending(sc.author, sc.ev)};
  }

  /** The copy sets the scene. */
  lemma CopyStarts(sc: Scene)
    requires ValidScene(sc)
    ensures Follows(sc, AfterCopy(sc.cfg, sc.start, sc.author, sc.ev))
  {
    hide Inv, NodeFollows;
    var s := AfterCopy(sc.cfg, sc.start, sc.author, sc.ev);
    forall n ensures NodeFollows(sc, s, n) {
      CopyStartsAt(sc, s, n);
    }
    assert s.pending == multiset{Pending(sc.author, sc.ev)};
  }

  /** From `s` to `t` nothing has happened that concerns node `n`. */
  predicate SameFor(sc: Scene, s: State, t: State, n: NodeID) {
    && At(t, n).clip == At(s, n).clip && At(t, n).chan == At(s, n).chan
    && t.tickets[sc.TicketAt(n)] == s.tickets[sc.TicketAt(n)]
    && t.reqs[sc.RequestBy(n)] == s.reqs[sc.RequestBy(n)]
    && t.msgs[sc.MessageTo(n)] == s.msgs[sc.MessageTo(n)]
    && t.pending[sc.ArrivedAt(n)] == s.pending[sc.ArrivedAt(n)]
  }

  /** A step at one node leaves the others where they are. */
  lemma OtherNodesFollow(sc: Scene, s: State, t: State, m: NodeID)
    requires forall n :: NodeFollows(sc, s, n)
    requires forall n :: n != m ==> SameFor(sc, s, t, n)
    requires NodeFollows(sc, t, m)
    ensures forall n :: NodeFollows(sc, t, n)
  {
    forall n ensures NodeFollows(sc, t, n) {
      assert NodeFollows(sc, s, n);
      if n != m {
        assert SameFor(sc, s, t, n);
      }
    }
  }

  /** What an announce of the copy does where it is delivered. */
  lemma DeliverAnnounceCounts(sc: Scene, s: State, p: AnnPacket)
    requires p.ev == sc.Announcement()
    ensures
      var n, t := p.dst, AfterDeliverAnnounce(s, p);
      var st, st' := At(s, n), At(t, n);
      && st'.clip == st.clip && st'.chan.last == st.chan.last && Heard(sc, st')
      && t.tickets[sc.TicketAt(n)] == s.tickets[sc.TicketAt(n)] + (if Heard(sc, st) then 0 else 1)
      && t.reqs == s.reqs && t.msgs == s.msgs && t.pending == s.pending
  {
    NodeAfterDeliverAnnounce(s, p, p.dst);
    hide At;
  }

  lemma DeliverAnnounceAt(sc: Scene, s: State, p: AnnPacket)
    requires ValidScene(sc) && Follows(sc, s) && p in s.anns
    ensures NodeFollows(sc, AfterDeliverAnnounce(s, p), p.dst)
  {
    hide ValidScene, NobodyForgotten, AfterDeliverAnnounce, Heard, At, IsAuthor;
    DeliverAnnounceCounts(sc, s, p);
    assert NodeFollows(sc, s, p.dst);
  }

  lemma DeliverAnnounceTraffic(sc: Scene, s: State, p: AnnPacket)
    requires TrafficFollows(sc, s) && p in s.anns
    ensures TrafficFollows(sc, AfterDeliverAnnounce(s, p))
  {
    hide At, Announced, IsNews;
  }

  lemma DeliverAnnounceForgetsNobody(sc: Scene, s: State, p: AnnPacket)
    requires p.ev == sc.Announcement() && NobodyForgotten(sc, s) && p in s.anns
    ensures NobodyForgotten(sc, AfterDeliverAnnounce(s, p))
  {
    var s' := AfterDeliverAnnounce(s, p);
    assert s'.pending == s.pending;
    DeliverAnnounceCounts(sc, s, p);
    forall n | n in sc.cfg.Peers(sc.author)
      ensures
        || Heard(sc, At(s', n))
        || AnnPacket(sc.author, n, sc.Announcement()) in s'.anns
        || Pending(sc.author, sc.ev) in s'.pending
    {
      NodeAfterDeliverAnnounce(s, p, n);
      hide At, Announced, IsNews;
    }
  }

  lemma DeliverAnnounceElsewhere(sc: Scene, s: State, p: AnnPacket, n: NodeID)
    requires n != p.dst
    ensures SameFor(sc, s, AfterDeliverAnnounce(s, p), n)
  {
    NodeAfterDeliverAnnounce(s, p, n);
    hide At, Announced, IsNews;
  }

  lemma DeliverAnnounceFollows(sc: Scene, s: State, p: AnnPacket)
    requires ValidScene(sc) && Follows(sc, s) && p in s.anns
    ensures Follows(sc, AfterDeliverAnnounce(s, p))
  {
    assert p.ev == sc.Announcement();
    hide ValidScene, NodeFollows, TrafficFollows, NobodyForgotten, AfterDeliverAnnounce, SameFor;
    DeliverAnnounceAt(sc, s, p);
    DeliverAnnounceTraffic(sc, s, p);
    DeliverAnnounceForgetsNobody(sc, s, p);
    forall n | n != p.dst ensures SameFor(sc, s, AfterDeliverAnnounce(s, p), n) {
      DeliverAnnounceElsewhere(sc, s, p, n);
    }
    OtherNodesFollow(sc, s, AfterDeliverAnnounce(s, p), p.dst);
  }

  /** Exactly the peers that want the copy ask for it when they come to handle its announce. */
  lemma AsksIffReceives(sc: Scene, s: State, n: NodeID)
    requires ValidScene(sc) && NodeFollows(sc, s, n) && 0 < s.tickets[sc.TicketAt(n)]
    ensures n != sc.author
    ensures Requests(At(s, n), sc.cfg.Peers(n), sc.cfg.Max(n), sc.Announcement()) <==> sc.Receives(n)
  {
    hide Inv;
    SceneFacts(sc);
    IdIsNew(sc, n);
    assert n in sc.cfg.Peers(sc.author) <==> sc.author in sc.cfg.Peers(n);
  }

  /** What handling an announce of the copy does at its node. */
  lemma HandleAnnounceCounts(sc: Scene, s: State, t: Ticket)
    requires t in s.tickets && t == sc.TicketAt(t.node) && sc.Announcement().from == sc.author
    ensures
      var n, s' := t.node, AfterHandleAnnounce(sc.cfg, s, t);
      var asks := Requests(At(s, n), sc.cfg.Peers(n), sc.cfg.Max(n), sc.Announcement());
      && At(s', n).clip == At(s, n).clip && At(s', n).chan == At(s, n).chan
      && s'.tickets[t] == s.tickets[t] - 1
      && s'.reqs[sc.RequestBy(n)] == s.reqs[sc.RequestBy(n)] + (if asks then 1 else 0)
      && s'.msgs == s.msgs && s'.pending == s.pending
  {
    NodeAfterHandleAnnounce(sc.cfg, s, t, t.node);
    hide At, Requests;
  }

  lemma HandleAnnounceAt(sc: Scene, s: State, t: Ticket)
    requires ValidScene(sc) && Follows(sc, s) && t in s.tickets
    ensures NodeFollows(sc, AfterHandleAnnounce(sc.cfg, s, t), t.node)
  {
    hide ValidScene, NobodyForgotten, AfterHandleAnnounce, Requests, At, IsAuthor;
    SceneFacts(sc);
    assert NodeFollows(sc, s, t.node) && t == sc.TicketAt(t.node);
    AsksIffReceives(sc, s, t.node);
    HandleAnnounceCounts(sc, s, t);
  }

  lemma ServeRequestAt(sc: Scene, s: State, p: ReqPacket, file: Option<Bytes>)
    requires ValidScene(sc) && Follows(sc, s) && p in s.reqs
    ensures NodeFollows(sc, AfterServeRequest(s, p, file), p.src)
  {
    hide Inv, ValidScene, NobodyForgotten;
    SceneFacts(sc);
    assert NodeFollows(sc, s, p.src) && NodeFollows(sc, s, sc.author);
    assert Answer(At(s, sc.author).chan, p, file) == Some(sc.MessageTo(p.src));
  }

  /** A node that wants the copy and does not hold it takes it in. */
  lemma ReceiverAccepts(sc: Scene, s: State, p: MsgPacket, stored: Option<Bytes>)
    requires ValidScene(sc) && sc.Receives(p.dst) && p == sc.MessageTo(p.dst)
    requires At(s, p.dst).chan.last == At(sc.start, p.dst).chan.last
    ensures MessagePasses(At(s, p.dst), sc.cfg.Max(p.dst), p.ev, p.raw, stored) == Some(sc.Arrived())
  {
    hide Inv, At;
    IdIsNew(sc, p.dst);
    assert p.raw[..p.ev.payload.length] == sc.ev.payload.data;
  }

  /** What the copy does where it is taken in. */
  lemma DeliverMessageCounts(sc: Scene, s: State, p: MsgPacket, stored: Option<Bytes>)
    requires p in s.msgs && p == sc.MessageTo(p.dst)
    requires !IsPath(sc.Arrived().payload.mime)
    requires MessagePasses(At(s, p.dst), sc.cfg.Max(p.dst), p.ev, p.raw, stored) == Some(sc.Arrived())
    ensures
      var n, t := p.dst, AfterDeliverMessage(sc.cfg, s, p, stored);
      && At(t, n).clip == At(s, n).clip && At(t, n).chan == At(s, n).chan.(last := sc.Arrived())
      && t.tickets == s.tickets && t.reqs == s.reqs && t.msgs[p] == s.msgs[p] - 1
      && t.pending[sc.ArrivedAt(n)] == s.pending[sc.ArrivedAt(n)] + 1
  {
    NodeAfterDeliverMessage(sc.cfg, s, p, stored, p.dst);
    hide At;
  }

  lemma DeliverMessageAt(sc: Scene, s: State, p: MsgPacket, stored: Option<Bytes>)
    requires ValidScene(sc) && Follows(sc, s) && p in s.msgs
    ensures NodeFollows(sc, AfterDeliverMessage(sc.cfg, s, p, stored), p.dst)
  {
    hide ValidScene, NobodyForgotten, AfterDeliverMessage, MessagePasses, At;
    SceneFacts(sc);
    assert NodeFollows(sc, s, p.dst) && p == sc.MessageTo(p.dst) && 0 < s.msgs[p];
    assert sc.Receives(p.dst) && p.dst != sc.author;
    ReceiverAccepts(sc, s, p, stored);
    DeliverMessageCounts(sc, s, p, stored);
    Longer(At(sc.start, p.dst).clip, Whole(sc.Arrived().payload));
  }

  /** What writing the copy does at its node. */
  lemma InjectCounts(sc: Scene, s: State, i: Pending)
    requires i in s.pending
    ensures
      var n, t := i.node, AfterInject(sc.cfg, s, i);
      && At(t, n).chan == At(s, n).chan
      && (i.ev.from == n ==> At(t, n).clip == At(s, n).clip)
      && (i.ev.from != n && !IsBatched(i.ev.payload) ==> At(t, n).clip == At(s, n).clip + [Whole(i.ev.payload)])
      && t.tickets == s.tickets && t.reqs == s.reqs && t.msgs == s.msgs
      && t.pending[i] == s.pending[i] - 1 && forall j :: j != i ==> t.pending[j] == s.pending[j]
  {
    NodeAfterInject(sc.cfg, s, i, i.node);
    hide At, Announcements;
  }

  lemma InjectAt(sc: Scene, s: State, i: Pending)
    requires ValidScene(sc) && Follows(sc, s) && i in s.pending
    ensures NodeFollows(sc, AfterInject(sc.cfg, s, i), i.node)
  {
    hide ValidScene, NobodyForgotten, AfterInject, At;
    SceneFacts(sc);
    InjectCounts(sc, s, i);
    assert NodeFollows(sc, s, i.node);
    if i.node != sc.author {
      assert i == sc.ArrivedAt(i.node) && 0 < s.pending[i];
      Longer(At(sc.start, i.node).clip, Whole(sc.Arrived().payload));
    }
  }

  lemma HandleAnnounceTraffic(sc: Scene, s: State, t: Ticket)
    requires ValidScene(sc) && TrafficFollows(sc, s) && t in s.tickets
    ensures TrafficFollows(sc, AfterHandleAnnounce(sc.cfg, s, t))
  {
    hide ValidScene, Requests, AnnounceHandled;
    SceneFacts(sc);
  }

  /** Nobody is forgotten by a step that takes no announce away, unlearns nothing and leaves the author's write
      alone. */
  lemma StillNobodyForgotten(sc: Scene, s: State, t: State)
    requires NobodyForgotten(sc, s) && s.anns <= t.anns
    requires Pending(sc.author, sc.ev) in s.pending ==> Pending(sc.author, sc.ev) in t.pending
    requires forall n :: Heard(sc, At(s, n)) ==> Heard(sc, At(t, n))
    ensures NobodyForgotten(sc, t)
  {
  }

  lemma HandleAnnounceElsewhere(sc: Scene, s: State, t: Ticket, n: NodeID)
    requires t == sc.TicketAt(t.node)
    ensures n != t.node && sc.Announcement().from == sc.author ==> SameFor(sc, s, AfterHandleAnnounce(sc.cfg, s, t), n)
    ensures At(AfterHandleAnnounce(sc.cfg, s, t), n).chan == At(s, n).chan
  {
    assert AnnounceHandled(At(s, t.node), sc.cfg.Peers(t.node), sc.cfg.Max(t.node), t.ev).chan == At(s, t.node).chan;
    NodeAfterHandleAnnounce(sc.cfg, s, t, n);
    hide AnnounceHandled, Requests, At;
  }

  lemma HandleAnnounceFollows(sc: Scene, s: State, t: Ticket)
    requires ValidScene(sc) && Follows(sc, s) && t in s.tickets
    ensures Follows(sc, AfterHandleAnnounce(sc.cfg, s, t))
  {
    SceneFacts(sc);
    HandleAnnounceAt(sc, s, t);
    HandleAnnounceTraffic(sc, s, t);
    var s' := AfterHandleAnnounce(sc.cfg, s, t);
    assert t == sc.TicketAt(t.node) && s'.anns == s.anns && s'.pending == s.pending;
    hide ValidScene, NodeFollows, TrafficFollows, NobodyForgotten, AfterHandleAnnounce, SameFor;
    forall n ensures n != t.node ==> SameFor(sc, s, s', n)
      ensures Heard(sc, At(s, n)) ==> Heard(sc, At(s', n))
    {
      HandleAnnounceElsewhere(sc, s, t, n);
    }
    StillNobodyForgotten(sc, s, s');
    OtherNodesFollow(sc, s, s', t.node);
  }

  /** The author answers a request for the copy with the copy. */
  lemma AnswerIsMessage(sc: Scene, s: State, p: ReqPacket, file: Option<Bytes>)
    requires ValidScene(sc) && IsAuthor(sc, s) && p == sc.RequestBy(p.src)
    ensures Answer(At(s, p.dst).chan, p, file) == Some(sc.MessageTo(p.src))
  {
    SceneFacts(sc);
  }

  lemma ServeRequestElsewhere(sc: Scene, s: State, p: ReqPacket, file: Option<Bytes>, n: NodeID)
    requires p == sc.RequestBy(p.src) && Answer(At(s, p.dst).chan, p, file) == Some(sc.MessageTo(p.src))
    ensures n != p.src ==> SameFor(sc, s, AfterServeRequest(s, p, file), n)
  {
    hide Answer;
  }

  lemma ServeRequestTraffic(sc: Scene, s: State, p: ReqPacket, file: Option<Bytes>)
    requires TrafficFollows(sc, s) && p in s.reqs && Answer(At(s, p.dst).chan, p, file) == Some(sc.MessageTo(p.src))
    ensures TrafficFollows(sc, AfterServeRequest(s, p, file))
  {
    hide Answer;
  }

  lemma ServeRequestFollows(sc: Scene, s: State, p: ReqPacket, file: Option<Bytes>)
    requires ValidScene(sc) && Follows(sc, s) && p in s.reqs
    ensures Follows(sc, AfterServeRequest(s, p, file))
  {
    hide Inv, ValidScene, Answer, NobodyForgotten;
    assert NodeFollows(sc, s, sc.author);
    assert p == sc.RequestBy(p.src);
    AnswerIsMessage(sc, s, p, file);
    ServeRequestAt(sc, s, p, file);
    ServeRequestTraffic(sc, s, p, file);
    var s' := AfterServeRequest(s, p, file);
    assert s'.nodes == s.nodes && s'.anns == s.anns && s'.pending == s.pending;
    hide ValidScene, NodeFollows, Answer, TrafficFollows, NobodyForgotten, AfterServeRequest, SameFor;
    forall n ensures n != p.src ==> SameFor(sc, s, s', n) {
      ServeRequestElsewhere(sc, s, p, file, n);
    }
    StillNobodyForgotten(sc, s, s');
    OtherNodesFollow(sc, s, s', p.src);
  }

  /** A delivered copy is passed on as the copy or not at all, and touches no announce filter. */
  lemma AcceptedIsArrived(sc: Scene, st: NodeState, p: MsgPacket, stored: Option<Bytes>)
    requires ValidScene(sc) && p == sc.MessageTo(p.dst)
    ensures Accepted(st, sc.cfg.Max(p.dst), p, stored).Some? ==>
      Accepted(st, sc.cfg.Max(p.dst), p, stored).value == sc.ArrivedAt(p.dst)
    ensures MessageHandled(st, sc.cfg.Max(p.dst), p.ev, p.raw, stored).chan.announced == st.chan.announced
  {
    SceneFacts(sc);
    assert p.raw[..p.ev.payload.length] == sc.ev.payload.data;
  }

  lemma DeliverMessageElsewhere(sc: Scene, s: State, p: MsgPacket, stored: Option<Bytes>, n: NodeID)
    requires ValidScene(sc) && p == sc.MessageTo(p.dst)
    ensures n != p.dst ==> SameFor(sc, s, AfterDeliverMessage(sc.cfg, s, p, stored), n)
    ensures Heard(sc, At(s, n)) ==> Heard(sc, At(AfterDeliverMessage(sc.cfg, s, p, stored), n))
  {
    AcceptedIsArrived(sc, At(s, p.dst), p, stored);
    NodeAfterDeliverMessage(sc.cfg, s, p, stored, n);
    hide ValidScene, Accepted, MessageHandled, At;
  }

  lemma DeliverMessageTraffic(sc: Scene, s: State, p: MsgPacket, stored: Option<Bytes>)
    requires ValidScene(sc) && TrafficFollows(sc, s) && p in s.msgs && p.dst != sc.author
    ensures TrafficFollows(sc, AfterDeliverMessage(sc.cfg, s, p, stored))
  {
    hide ValidScene, Accepted, MessageHandled;
    AcceptedIsArrived(sc, At(s, p.dst), p, stored);
  }

  lemma DeliverMessageFollows(sc: Scene, s: State, p: MsgPacket, stored: Option<Bytes>)
    requires ValidScene(sc) && Follows(sc, s) && p in s.msgs
    ensures Follows(sc, AfterDeliverMessage(sc.cfg, s, p, stored))
  {
    assert NodeFollows(sc, s, p.dst) && p == sc.MessageTo(p.dst);
    DeliverMessageAt(sc, s, p, stored);
    DeliverMessageTraffic(sc, s, p, stored);
    var s' := AfterDeliverMessage(sc.cfg, s, p, stored);
    assert s'.anns == s.anns && s.pending <= s'.pending;
    hide ValidScene, NodeFollows, TrafficFollows, NobodyForgotten, SameFor, AfterDeliverMessage;
    forall n ensures n != p.dst ==> SameFor(sc, s, s', n)
      ensures Heard(sc, At(s, n)) ==> Heard(sc, At(s', n))
    {
      DeliverMessageElsewhere(sc, s, p, stored, n);
    }
    StillNobodyForgotten(sc, s, s');
    OtherNodesFollow(sc, s, s', p.dst);
  }

  lemma AnnouncementsFollow(sc: Scene, i: Pending)
    requires ValidScene(sc) && (i == Pending(sc.author, sc.ev) || i == sc.ArrivedAt(i.node))
    ensures forall p :: p in Announcements(sc.cfg, i.node, i.ev) ==> p.ev == sc.Announcement() && p.dst != sc.author
    ensures i.node == sc.author ==>
      forall n :: n in sc.cfg.Peers(sc.author) ==>
        AnnPacket(sc.author, n, sc.Announcement()) in Announcements(sc.cfg, i.node, i.ev)
  {
    SceneFacts(sc);
    hide ValidScene;
    forall n | i.node == sc.author && n in sc.cfg.Peers(sc.author)
      ensures AnnPacket(sc.author, n, sc.Announcement()) in Announcements(sc.cfg, i.node, i.ev)
    {
      assert n in sc.cfg.Peers(sc.author) - {i.ev.from};
    }
  }

  lemma InjectTraffic(sc: Scene, s: State, i: Pending)
    requires ValidScene(sc) && TrafficFollows(sc, s) && i in s.pending
    ensures TrafficFollows(sc, AfterInject(sc.cfg, s, i))
  {
    hide ValidScene, Injected, Announcements;
    AnnouncementsFollow(sc, i);
  }

  lemma InjectElsewhere(sc: Scene, s: State, i: Pending, n: NodeID)
    ensures n != i.node ==> SameFor(sc, s, AfterInject(sc.cfg, s, i), n)
    ensures At(AfterInject(sc.cfg, s, i), n).chan == At(s, n).chan
  {
    assert Injected(At(s, i.node), i.node, i.ev).chan == At(s, i.node).chan;
    hide Injected, Announcements;
  }

  /** Once the author's own write is through, all its peers are being told. */
  lemma InjectForgetsNobody(sc: Scene, s: State, i: Pending)
    requires ValidScene(sc) && NobodyForgotten(sc, s) && i in s.pending
    requires if i.node == sc.author then i.ev == sc.ev else i == sc.ArrivedAt(i.node)
    requires forall n :: Heard(sc, At(s, n)) ==> Heard(sc, At(AfterInject(sc.cfg, s, i), n))
    ensures NobodyForgotten(sc, AfterInject(sc.cfg, s, i))
  {
    var s' := AfterInject(sc.cfg, s, i);
    if i.node == sc.author {
      AnnouncementsFollow(sc, i);
      hide ValidScene, Injected, Announcements;
    } else {
      hide ValidScene, Injected;
      StillNobodyForgotten(sc, s, s');
    }
  }

  lemma InjectFollows(sc: Scene, s: State, i: Pending)
    requires ValidScene(sc) && Follows(sc, s) && i in s.pending
    ensures Follows(sc, AfterInject(sc.cfg, s, i))
  {
    InjectAt(sc, s, i);
    InjectTraffic(sc, s, i);
    var s' := AfterInject(sc.cfg, s, i);
    assert if i.node == sc.author then i.ev == sc.ev else i == sc.ArrivedAt(i.node);
    hide ValidScene, NodeFollows, TrafficFollows, NobodyForgotten, SameFor, AfterInject;
    forall n ensures n != i.node ==> SameFor(sc, s, s', n)
      ensures Heard(sc, At(s, n)) ==> Heard(sc, At(s', n))
    {
      InjectElsewhere(sc, s, i, n);
    }
    InjectForgetsNobody(sc, s, i);
    OtherNodesFollow(sc, s, s', i.node);
  }

  lemma ExpireFollows(sc: Scene, s: State, n: NodeID, bID: MessageID)
    requires Follows(sc, s)
    ensures Follows(sc, AfterExpire(s, n, bID))
  {
    var s' := AfterExpire(s, n, bID);
    hide NodeFollows, TrafficFollows, NobodyForgotten, AfterExpire, SameFor;
    forall m ensures SameFor(sc, s, s', m) && (Heard(sc, At(s, m)) ==> Heard(sc, At(s', m))) {
      ExpireIsSame(sc, s, n, bID, m);
    }
    ExpireTraffic(sc, s, n, bID);
    StillNobodyForgotten(sc, s, s');
    assert NodeFollows(sc, s, n);
    SameFollows(sc, s, s', n);
    OtherNodesFollow(sc, s, s', n);
  }

  lemma ExpireIsSame(sc: Scene, s: State, n: NodeID, bID: MessageID, m: NodeID)
    ensures SameFor(sc, s, AfterExpire(s, n, bID), m)
    ensures At(AfterExpire(s, n, bID), m).chan == At(s, m).chan
  {
    NodeAfterExpire(s, n, bID, m);
    hide At;
  }

  lemma ExpireTraffic(sc: Scene, s: State, n: NodeID, bID: MessageID)
    requires TrafficFollows(sc, s)
    ensures
      var s' := AfterExpire(s, n, bID);
      TrafficFollows(sc, s') && s'.anns == s.anns && s'.pending == s.pending
  {
    hide At;
  }

  /** A copy that does not pass its node, such as the report of the node's own write, changes nothing. */
  lemma EchoFollows(sc: Scene, s: State, n: NodeID, ev: EventMessage)
    requires Follows(sc, s) && !CopyPasses(At(s, n), ev)
    ensures Follows(sc, AfterCopy(sc.cfg, s, n, ev))
  {
    var s' := AfterCopy(sc.cfg, s, n, ev);
    hide NodeFollows, TrafficFollows, NobodyForgotten, AfterCopy, SameFor;
    forall m ensures SameFor(sc, s, s', m) && (Heard(sc, At(s, m)) ==> Heard(sc, At(s', m))) {
      EchoIsSame(sc, s, n, ev, m);
    }
    EchoTraffic(sc, s, n, ev);
    StillNobodyForgotten(sc, s, s');
    assert NodeFollows(sc, s, n);
    SameFollows(sc, s, s', n);
    OtherNodesFollow(sc, s, s', n);
  }

  lemma EchoIsSame(sc: Scene, s: State, n: NodeID, ev: EventMessage, m: NodeID)
    requires !CopyPasses(At(s, n), ev)
    ensures SameFor(sc, s, AfterCopy(sc.cfg, s, n, ev), m)
    ensures At(AfterCopy(sc.cfg, s, n, ev), m).chan == At(s, m).chan
  {
    NodeAfterCopy(sc.cfg, s, n, ev, m);
    hide At, Accepts, IsNewCopy;
  }

  lemma EchoTraffic(sc: Scene, s: State, n: NodeID, ev: EventMessage)
    requires TrafficFollows(sc, s) && !CopyPasses(At(s, n), ev)
    ensures
      var s' := AfterCopy(sc.cfg, s, n, ev);
      TrafficFollows(sc, s') && s'.anns == s.anns && s'.pending == s.pending
  {
    hide At, CopyPasses, Copied, IsNewCopy;
  }

  lemma SameFollows(sc: Scene, s: State, t: State, n: NodeID)
    requires NodeFollows(sc, s, n) && SameFor(sc, s, t, n)
    ensures NodeFollows(sc, t, n)
  {
  }

  lemma StepFollows(sc: Scene, s: State, step: Step)
    requires ValidScene(sc) && Follows(sc, s) && Enabled(sc.cfg, s, step) && !Brings(s, step)
    ensures Follows(sc, Apply(sc.cfg, s, step))
  {
    hide AfterExpire, AfterCopy, CopyPasses, CopyEvent;
    hide ValidScene, Follows, AfterDeliverAnnounce, AfterHandleAnnounce, AfterServeRequest, AfterDeliverMessage,
      AfterInject;
    match step
    case Copy(n, u, id, now) => EchoFollows(sc, s, n, CopyEvent(n, u, id, now));
    case DeliverAnnounce(p) => DeliverAnnounceFollows(sc, s, p);
    case HandleAnnounce(t) => HandleAnnounceFollows(sc, s, t);
    case ServeRequest(p, file) => ServeRequestFollows(sc, s, p, file);
    case DeliverMessage(p, stored) => DeliverMessageFollows(sc, s, p, stored);
    case Inject(i) => InjectFollows(sc, s, i);
    case ExpireBatch(n, bID) => ExpireFollows(sc, s, n, bID);
  }

  lemma {:induction false} RunFollows(sc: Scene, s: State, steps: seq<Step>)
    requires ValidScene(sc) && Follows(sc, s) && CanRun(sc.cfg, s, steps) && CopiesIn(sc.cfg, s, steps) == 0
    ensures Follows(sc, Gossip.Run(sc.cfg, s, steps))
    decreases |steps|
  {
    hide ValidScene, Follows, Apply, Enabled, Brings;
    if steps != [] {
      StepFollows(sc, s, steps[0]);
      RunFollows(sc, Apply(sc.cfg, s, steps[0]), steps[1..]);
    }
  }

  lemma QuietMeansWritten(sc: Scene, s: State, n: NodeID)
    requires ValidScene(sc) && Follows(sc, s) && Quiescent(s)
    ensures At(s, n).clip == At(sc.start, n).clip + if sc.Receives(n) then [Whole(sc.Arrived().payload)] else []
  {
    hide Inv, ValidScene;
    SceneFacts(sc);
    assert NodeFollows(sc, s, n);
  }

  /** Whatever the interleaving, and whatever nodes report of their own writes, once the mesh is quiet again the copy
      has been written exactly once by each peer of its author that wants it, with the author's bytes, and by nobody
      else. */
  lemma CopyIsDeliveredOnce(sc: Scene, steps: seq<Step>)
    requires ValidScene(sc)
    requires CanRun(sc.cfg, AfterCopy(sc.cfg, sc.start, sc.author, sc.ev), steps)
    requires CopiesIn(sc.cfg, AfterCopy(sc.cfg, sc.start, sc.author, sc.ev), steps) == 0
    requires Quiescent(Gossip.Run(sc.cfg, AfterCopy(sc.cfg, sc.start, sc.author, sc.ev), steps))
    ensures
      var end := Gossip.Run(sc.cfg, AfterCopy(sc.cfg, sc.start, sc.author, sc.ev), steps);
      forall n :: At(end, n).clip == At(sc.start, n).clip
        + if sc.Receives(n) then [Whole(sc.ev.payload.(mime := NormalMime(sc.ev.payload.mime)))] else []
  {
    hide ValidScene, Follows, Quiescent, AfterCopy;
    CopyStarts(sc);
    var first := AfterCopy(sc.cfg, sc.start, sc.author, sc.ev);
    RunFollows(sc, first, steps);
    forall n
      ensures At(Gossip.Run(sc.cfg, first, steps), n).clip == At(sc.start, n).clip
        + if sc.Receives(n) then [Whole(sc.ev.payload.(mime := NormalMime(sc.ev.payload.mime)))] else []
    {
      QuietMeansWritten(sc, Gossip.Run(sc.cfg, first, steps), n);
    }
  }

  /** The content of the copy is new to every node, and the copy is small enough for every peer. */
  ghost predicate IsFresh(sc: Scene) {
    && (forall n :: !Heard(sc, At(sc.start, n)) && At(sc.start, n).chan.last.payload.hash != sc.ev.payload.hash)
    && (forall n :: n in sc.cfg.Peers(sc.author) ==> sc.ev.payload.length <= sc.cfg.Max(n))
  }

  predicate WritesAtPeers(sc: Scene, end: State, n: NodeID) {
    At(end, n).clip == At(sc.start, n).clip
      + if n in sc.cfg.Peers(sc.author) then [Whole(sc.ev.payload.(mime := NormalMime(sc.ev.payload.mime)))] else []
  }

  lemma FreshSceneIsTame(sc: Scene)
    requires ValidScene(sc) && IsFresh(sc) && ValidFilters(sc.start)
    ensures Tame(sc.cfg, {sc.ev.payload.hash}, sc.start)
  {
    hide Inv;
    forall n | n in sc.start.nodes
      ensures ValidFifo(sc.start.nodes[n].chan.announced, HISTORY_SIZE)
      ensures Aged(sc.start.nodes[n].chan.announced.order, {sc.ev.payload.hash})
    {
      assert !Heard(sc, At(sc.start, n)) && ValidFifo(At(sc.start, n).chan.announced, HISTORY_SIZE);
    }
  }

  /** A fresh inline copy made at rest, in any mesh that ran before, with no other copy passing its node: its gossip
      dies out after a bounded number of steps, and then exactly the direct peers of its author have written it, each
      of them once. */
  lemma FreshCopyReachesEveryPeer(cfg: Config, past: seq<Step>, sc: Scene, copy: Step, steps: seq<Step>)
    requires ValidConfig(cfg) && CanRun(cfg, Initial(cfg), past) && sc.start == Gossip.Run(cfg, Initial(cfg), past)
    requires sc.cfg == cfg && IsScene(sc) && IsFresh(sc)
    requires copy.Copy? && Enabled(cfg, sc.start, copy) && sc.author == copy.n
    requires sc.ev == CopyEvent(copy.n, copy.u, copy.id, copy.now)
    requires CanRun(cfg, sc.start, [copy] + steps) && CopiesIn(cfg, sc.start, [copy] + steps) == 1
    ensures TrafficIn(steps) <= (|cfg.nodes| + 3) * |cfg.nodes| + |cfg.nodes|
    ensures
      var end := Gossip.Run(cfg, sc.start, [copy] + steps);
      Quiescent(end) ==> forall n :: WritesAtPeers(sc, end, n)
  {
    var run := [copy] + steps;
    assert run[0] == copy && run[1..] == steps;
    CopyOfScene(sc, copy);
    ReachedSceneIsValid(cfg, past, sc);
    hide IsScene, IsFresh, CopyEvent, Apply, Enabled, Brings, AfterCopy, ValidConfig, Inv;
    FreshRunIsBounded(cfg, past, sc, run);
    if Quiescent(Gossip.Run(cfg, sc.start, run)) {
      DeliveredAtPeers(sc, steps);
    }
  }

  lemma CopyOfScene(sc: Scene, copy: Step)
    requires IsScene(sc) && copy.Copy? && Enabled(sc.cfg, sc.start, copy) && sc.author == copy.n
    requires sc.ev == CopyEvent(copy.n, copy.u, copy.id, copy.now)
    ensures Brings(sc.start, copy) && copy.u.hash == sc.ev.payload.hash
    ensures Apply(sc.cfg, sc.start, copy) == AfterCopy(sc.cfg, sc.start, sc.author, sc.ev)
  {
  }

  lemma ReachedSceneIsValid(cfg: Config, past: seq<Step>, sc: Scene)
    requires ValidConfig(cfg) && CanRun(cfg, Initial(cfg), past) && sc.start == Gossip.Run(cfg, Initial(cfg), past)
    requires sc.cfg == cfg && IsScene(sc)
    ensures ValidScene(sc)
  {
    hide IsScene, CanRun;
    InitialIsGood(cfg);
    RunKeepsGood(cfg, Initial(cfg), past);
  }

  /** A copy that is fresh is written by each direct peer, once, and by nobody else. */
  lemma DeliveredAtPeers(sc: Scene, steps: seq<Step>)
    requires ValidScene(sc) && IsFresh(sc)
    requires CanRun(sc.cfg, AfterCopy(sc.cfg, sc.start, sc.author, sc.ev), steps)
    requires CopiesIn(sc.cfg, AfterCopy(sc.cfg, sc.start, sc.author, sc.ev), steps) == 0
    requires Quiescent(Gossip.Run(sc.cfg, AfterCopy(sc.cfg, sc.start, sc.author, sc.ev), steps))
    ensures forall n :: WritesAtPeers(sc, Gossip.Run(sc.cfg, AfterCopy(sc.cfg, sc.start, sc.author, sc.ev), steps), n)
  {
    hide ValidScene, AfterCopy, At, Quiescent;
    CopyIsDeliveredOnce(sc, steps);
  }

  lemma FreshRunIsBounded(cfg: Config, past: seq<Step>, sc: Scene, run: seq<Step>)
    requires ValidConfig(cfg) && CanRun(cfg, Initial(cfg), past) && sc.start == Gossip.Run(cfg, Initial(cfg), past)
    requires sc.cfg == cfg && ValidScene(sc) && IsFresh(sc)
    requires run != [] && CanRun(cfg, sc.start, run) && run[0].Copy? && run[0].u.hash == sc.ev.payload.hash
    requires CopiesIn(cfg, sc.start, run) == 1 && Brings(sc.start, run[0])
    ensures TrafficIn(run[1..]) <= (|cfg.nodes| + 3) * |cfg.nodes| + |cfg.nodes|
  {
    hide CanRun, Apply, ValidConfig, Brings;
    RunKeepsFilters(cfg, Initial(cfg), past);
    FreshSceneIsTame(sc);
    FirstCopyWithin(cfg, sc.start, run, {sc.ev.payload.hash});
    GossipTerminates(cfg, {sc.ev.payload.hash}, sc.start, run);
    assert TrafficIn(run) == TrafficIn(run[1..]);
  }

  lemma FirstCopyWithin(cfg: Config, s: State, run: seq<Step>, contents: set<Uint64>)
    requires run != [] && CanRun(cfg, s, run) && run[0].Copy? && run[0].u.hash in contents
    requires CopiesIn(cfg, s, run) == 1 && Brings(s, run[0])
    ensures AllCopiesWithin(cfg, s, run, contents)
  {
    hide Apply, Enabled, Brings;
    NoCopiesWithin(cfg, Apply(cfg, s, run[0]), run[1..], contents);
  }

  lemma {:induction false} NoCopiesWithin(cfg: Config, s: State, steps: seq<Step>, contents: set<Uint64>)
    requires CanRun(cfg, s, steps) && CopiesIn(cfg, s, steps) == 0
    ensures AllCopiesWithin(cfg, s, steps, contents)
    decreases |steps|
  {
    hide Apply, Enabled, Brings;
    if steps != [] {
      NoCopiesWithin(cfg, Apply(cfg, s, steps[0]), steps[1..], contents);
    }
  }
}
