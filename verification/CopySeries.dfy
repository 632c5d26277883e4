/** Several copies by one author on their way through the mesh: what is in flight, and how each of them moves from
    an announce that is let through to a write at one other node. */
module CopySeries {
  import opened Wrappers
  import opened Machine
  import opened Domain
  import opened Channel
  import opened History
  import opened Node
  import opened Gossip
  import opened GossipSafety
  import opened GossipTermination

  /** The messages `evs` copied at the node `author` when the mesh is in the state `start`. `raw` is what the author
      sends behind a message, `store` what the message holds where it has arrived: the path of a stored file. */
  datatype Series = Series(
    cfg: Config, start: State, author: NodeID, evs: seq<EventMessage>,
    raw: MessageID -> Bytes, store: (NodeID, MessageID) -> Bytes)
  {
    ghost function Ids(): set<MessageID> {
      set i | 0 <= i < |evs| :: evs[i].payload.id
    }

    ghost function Hashes(): set<Uint64> {
      set i | 0 <= i < |evs| :: evs[i].payload.hash
    }

    function Announcement(i: nat): EventAnnounce
      requires i < |evs|
    {
      AnnounceAsReceived(AnnounceOf(evs[i]))
    }

    /** Message `i` as node `n` holds it. */
    function Arrived(n: NodeID, i: nat): EventMessage
      requires i < |evs|
    {
      WithData(AsReceived(evs[i]), store(n, evs[i].payload.id))
    }

    function TicketAt(n: NodeID, i: nat): Ticket
      requires i < |evs|
    {
      Ticket(n, Announcement(i))
    }

    function RequestBy(n: NodeID, i: nat): ReqPacket
      requires i < |evs|
    {
      ReqPacket(n, author, evs[i].payload.id)
    }

    function MessageTo(n: NodeID, i: nat): MsgPacket
      requires i < |evs|
    {
      MsgPacket(author, n, AsReceived(evs[i]), raw(evs[i].payload.id))
    }

    function ArrivedAt(n: NodeID, i: nat): Pending
      requires i < |evs|
    {
      Pending(n, Arrived(n, i))
    }

    /** Whether node `n` is large enough for every message. */
    ghost predicate Fits(n: NodeID) {
      forall i :: 0 <= i < |evs| ==> evs[i].payload.length <= cfg.Max(n)
    }

    /** Whether the announce filter of node `n` holds no content of the series. */
    ghost predicate IsNewTo(n: NodeID) {
      forall i :: 0 <= i < |evs| ==> evs[i].payload.hash !in At(start, n).chan.announced.data
    }

    /** Whether the last message of node `n` has none of the contents. */
    ghost predicate IsNotLastOf(n: NodeID) {
      forall i :: 0 <= i < |evs| ==> evs[i].payload.hash != At(start, n).chan.last.payload.hash
    }
  }

  /** A message by the author under a new id. Inline data is what is sent and held. */
  ghost predicate IsItem(sr: Series, ev: EventMessage) {
    && ev.from == sr.author == Author(ev.payload.id) && ev.payload.id !in sr.start.published
    && !ev.payload.Zero() && (IsPath(ev.payload.mime) <==> IsPath(NormalMime(ev.payload.mime)))
    && (!IsPath(ev.payload.mime) ==>
          && |ev.payload.data| == ev.payload.length && sr.raw(ev.payload.id) == ev.payload.data
          && forall n :: sr.store(n, ev.payload.id) == ev.payload.data)
  }

  /** Messages of different ids and contents. */
  ghost predicate IsSeries(sr: Series) {
    && sr.author in sr.cfg.nodes && |sr.evs| < TWO32
    && (forall i :: 0 <= i < |sr.evs| ==> IsItem(sr, sr.evs[i]))
    && (forall i, j :: 0 <= i < j < |sr.evs| ==>
          sr.evs[i].payload.id != sr.evs[j].payload.id && sr.evs[i].payload.hash != sr.evs[j].payload.hash)
  }

  /** A series that starts from a good state at rest. */
  ghost predicate ValidSeries(sr: Series) {
    Inv(sr.cfg, sr.start) && ValidFilters(sr.start) && Quiescent(sr.start) && IsSeries(sr)
  }

  /** Any mesh that comes to rest can be the start of a series. */
  lemma RestIsAStart(past: seq<Step>, sr: Series)
    requires ValidConfig(sr.cfg) && CanRun(sr.cfg, Initial(sr.cfg), past)
    requires sr.start == Gossip.Run(sr.cfg, Initial(sr.cfg), past) && Quiescent(sr.start) && IsSeries(sr)
    ensures ValidSeries(sr)
  {
    hide IsSeries, CanRun;
    InitialIsGood(sr.cfg);
    RunKeepsGood(sr.cfg, Initial(sr.cfg), past);
    RunKeepsFilters(sr.cfg, Initial(sr.cfg), past);
  }

  /** What a message looks like on its way. */
  lemma ItemFacts(sr: Series, n: NodeID, i: nat)
    requires ValidSeries(sr) && i < |sr.evs|
    ensures var ev, a, m := sr.evs[i], sr.Announcement(i), sr.Arrived(n, i);
      && a.from == m.from == ev.from == sr.author && !ev.payload.Zero() && !m.payload.Zero()
      && a.payload.id == m.payload.id == ev.payload.id && a.payload.hash == m.payload.hash == ev.payload.hash
      && a.payload.length == m.payload.length == ev.payload.length
      && a.payload.batchID == m.payload.batchID == ev.payload.batchID
      && a.payload.batchTotal == m.payload.batchTotal == ev.payload.batchTotal
      && m.payload.mime == NormalMime(ev.payload.mime) && (IsPath(m.payload.mime) <==> IsPath(ev.payload.mime))
      && m.payload.data == sr.store(n, ev.payload.id)
      && AnnounceAsReceived(AnnounceOf(m)) == a
  {
    assert IsItem(sr, sr.evs[i]);
  }

  lemma ItemsDiffer(sr: Series, i: nat, j: nat)
    requires ValidSeries(sr) && i < |sr.evs| && j < |sr.evs| && i != j
    ensures sr.evs[i].payload.id != sr.evs[j].payload.id && sr.evs[i].payload.hash != sr.evs[j].payload.hash
  {
    if i < j {
    } else {
      assert sr.evs[j].payload.id != sr.evs[i].payload.id;
    }
  }

  lemma TokensDiffer(sr: Series, n: NodeID, i: nat, j: nat)
    requires ValidSeries(sr) && i < |sr.evs| && j < |sr.evs| && i != j
    ensures sr.Announcement(i) != sr.Announcement(j)
    ensures sr.TicketAt(n, i) != sr.TicketAt(n, j) && sr.RequestBy(n, i) != sr.RequestBy(n, j)
    ensures sr.MessageTo(n, i) != sr.MessageTo(n, j) && sr.ArrivedAt(n, i) != sr.ArrivedAt(n, j)
  {
    ItemsDiffer(sr, i, j);
  }

  lemma AuthorIsNoPeer(sr: Series)
    requires ValidSeries(sr)
    ensures sr.author !in sr.cfg.Peers(sr.author)
    ensures forall n :: n in sr.cfg.Peers(sr.author) <==> sr.author in sr.cfg.Peers(n)
  {
  }

  lemma StartIsQuiet(sr: Series)
    requires ValidSeries(sr)
    ensures Quiescent(sr.start)
  {
  }

  /** Nobody holds anything under a new id when the series starts. */
  lemma IdsAreNew(sr: Series, n: NodeID, i: nat)
    requires ValidSeries(sr) && i < |sr.evs|
    ensures At(sr.start, n).chan.last.payload.id != sr.evs[i].payload.id
    ensures sr.evs[i].payload.id !in At(sr.start, n).chan.served.data
    ensures forall h :: h in At(sr.start, n).chan.announced.data ==>
      At(sr.start, n).chan.announced.data[h].payload.id != sr.evs[i].payload.id
  {
    assert IsItem(sr, sr.evs[i]);
    if n in sr.start.nodes {
      assert GoodNode(sr.start.published, n, sr.start.nodes[n]);
    }
  }

  // ---------------------------------------------------------------- how many there are

  lemma {:induction false} CountElements<T>(s: seq<T>)
    ensures |set x | x in s| <= |s| && (Distinct(s) ==> |set x | x in s| == |s|)
  {
    if s != [] {
      var n := |s| - 1;
      CountElements(s[..n]);
      assert s == s[..n] + [s[n]];
      assert (set x | x in s) == (set x | x in s[..n]) + {s[n]};
    }
  }

  lemma IdCount(sr: Series)
    requires ValidSeries(sr)
    ensures |sr.Ids()| == |sr.evs| && forall i :: 0 <= i < |sr.evs| ==> sr.evs[i].payload.id in sr.Ids()
  {
    var ids := seq(|sr.evs|, i requires 0 <= i < |sr.evs| => sr.evs[i].payload.id);
    CountElements(ids);
    forall i | 0 <= i < |sr.evs| ensures sr.evs[i].payload.id in ids {
      assert ids[i] == sr.evs[i].payload.id;
    }
    assert sr.Ids() == set x | x in ids;
  }

  lemma HashCount(sr: Series)
    ensures |sr.Hashes()| <= |sr.evs| && forall i :: 0 <= i < |sr.evs| ==> sr.evs[i].payload.hash in sr.Hashes()
  {
    var hashes := seq(|sr.evs|, i requires 0 <= i < |sr.evs| => sr.evs[i].payload.hash);
    CountElements(hashes);
    forall i | 0 <= i < |sr.evs| ensures sr.evs[i].payload.hash in hashes {
      assert hashes[i] == sr.evs[i].payload.hash;
    }
    assert sr.Hashes() == set x | x in hashes;
  }

  // ---------------------------------------------------------------- what is on its way

  ghost predicate IsAnnouncement(sr: Series, c: nat, ev: EventAnnounce) {
    exists i :: 0 <= i < c && i < |sr.evs| && ev == sr.Announcement(i)
  }

  ghost predicate IsRequest(sr: Series, c: nat, p: ReqPacket) {
    exists i :: 0 <= i < c && i < |sr.evs| && p == sr.RequestBy(p.src, i)
  }

  ghost predicate IsMessage(sr: Series, c: nat, p: MsgPacket) {
    exists i :: 0 <= i < c && i < |sr.evs| && p == sr.MessageTo(p.dst, i)
  }

  /** A message that waits to be written: the author's own as it was copied, elsewhere as it has arrived. */
  ghost predicate IsPending(sr: Series, c: nat, p: Pending) {
    exists i :: 0 <= i < c && i < |sr.evs|
      && p == if p.node == sr.author then Pending(sr.author, sr.evs[i]) else sr.ArrivedAt(p.node, i)
  }

  /** Everything in flight is about one of the first `c` messages, and nothing of it is on its way to the author but
      requests. */
  ghost predicate TrafficFollows(sr: Series, s: State, c: nat) {
    && (forall p :: p in s.anns ==> p.dst != sr.author && IsAnnouncement(sr, c, p.ev))
    && (forall t :: t in s.tickets ==> t.node != sr.author && IsAnnouncement(sr, c, t.ev))
    && (forall p :: p in s.reqs ==> p.src != sr.author && IsRequest(sr, c, p))
    && (forall p :: p in s.msgs ==> p.dst != sr.author && IsMessage(sr, c, p))
    && (forall p :: p in s.pending ==> IsPending(sr, c, p))
  }

  /** What the channel `c` holds under an id of the series is the message of that id. */
  ghost predicate HoldsTruly(sr: Series, c: Chan) {
    forall i :: 0 <= i < |sr.evs| ==>
      && (c.last.payload.id == sr.evs[i].payload.id ==> c.last == sr.evs[i])
      && (sr.evs[i].payload.id in c.served.data ==> c.served.data[sr.evs[i].payload.id] == sr.evs[i])
  }

  /** The account of the traffic and of the author when `c` messages have been copied. */
  ghost predicate SourceFollows(sr: Series, s: State, c: nat) {
    ValidSeries(sr) && c <= |sr.evs| && HoldsTruly(sr, At(s, sr.author).chan) && TrafficFollows(sr, s, c)
  }

  /** The environment does what the series needs: a file that is still there when it is served has not changed, and
      storing files succeeds. */
  predicate GoesWell(sr: Series, step: Step) {
    match step
    case ServeRequest(p, file) => file == None || file == Some(sr.raw(p.id))
    case DeliverMessage(p, stored) => stored == Some(sr.store(p.dst, p.ev.payload.id))
    case _ => true
  }

  lemma SourceStarts(sr: Series)
    requires ValidSeries(sr)
    ensures SourceFollows(sr, sr.start, 0)
  {
    StartIsQuiet(sr);
    forall i: nat | i < |sr.evs|
      ensures At(sr.start, sr.author).chan.last.payload.id != sr.evs[i].payload.id
      ensures sr.evs[i].payload.id !in At(sr.start, sr.author).chan.served.data
    {
      IdsAreNew(sr, sr.author, i);
    }
    hide ValidSeries, At;
  }

  lemma OneMoreItem(sr: Series, c: nat)
    ensures forall ev :: IsAnnouncement(sr, c, ev) ==> IsAnnouncement(sr, c + 1, ev)
    ensures forall p :: IsRequest(sr, c, p) ==> IsRequest(sr, c + 1, p)
    ensures forall p :: IsMessage(sr, c, p) ==> IsMessage(sr, c + 1, p)
    ensures forall p :: IsPending(sr, c, p) ==> IsPending(sr, c + 1, p)
  {
  }

  lemma NextCopyTraffic(sr: Series, s: State, c: nat)
    requires c < |sr.evs| && TrafficFollows(sr, s, c)
    ensures TrafficFollows(sr, AfterCopy(sr.cfg, s, sr.author, sr.evs[c]), c + 1)
  {
    OneMoreItem(sr, c);
    assert IsPending(sr, c + 1, Pending(sr.author, sr.evs[c]));
    hide IsAnnouncement, IsRequest, IsMessage, IsPending, At, Copied, CopyPasses;
  }

  /** Taking in one more message leaves what is held true. */
  lemma SentStaysTrue(sr: Series, chan: Chan, c: nat)
    requires ValidSeries(sr) && c < |sr.evs| && HoldsTruly(sr, chan)
    ensures HoldsTruly(sr, Sent(chan, sr.evs[c]))
  {
    forall i: nat | i < |sr.evs| && i != c ensures sr.evs[i].payload.id != sr.evs[c].payload.id {
      ItemsDiffer(sr, i, c);
    }
    hide ValidSeries;
  }

  lemma NextCopySource(sr: Series, s: State, c: nat)
    requires SourceFollows(sr, s, c) && c < |sr.evs|
    ensures SourceFollows(sr, AfterCopy(sr.cfg, s, sr.author, sr.evs[c]), c + 1)
  {
    hide ValidSeries, TrafficFollows, HoldsTruly, AfterCopy, At, Sent;
    NextCopyTraffic(sr, s, c);
    NodeAfterCopy(sr.cfg, s, sr.author, sr.evs[c], sr.author);
    SentStaysTrue(sr, At(s, sr.author).chan, c);
  }

  lemma EchoTraffic(sr: Series, s: State, c: nat, n: NodeID, ev: EventMessage)
    requires TrafficFollows(sr, s, c) && !CopyPasses(At(s, n), ev)
    ensures TrafficFollows(sr, AfterCopy(sr.cfg, s, n, ev), c)
  {
    hide At, CopyPasses, Copied, IsNewCopy;
  }

  lemma DeliverAnnounceTraffic(sr: Series, s: State, c: nat, p: AnnPacket)
    requires TrafficFollows(sr, s, c) && p in s.anns
    ensures TrafficFollows(sr, AfterDeliverAnnounce(s, p), c)
  {
    hide At, Announced, IsNews, IsAnnouncement, IsRequest, IsMessage, IsPending;
  }

  lemma AskedForItem(sr: Series, c: nat, t: Ticket)
    requires ValidSeries(sr) && IsAnnouncement(sr, c, t.ev)
    ensures IsRequest(sr, c, ReqPacket(t.node, t.ev.from, t.ev.payload.id))
  {
    var i :| 0 <= i < c && i < |sr.evs| && t.ev == sr.Announcement(i);
    ItemFacts(sr, t.node, i);
    assert ReqPacket(t.node, t.ev.from, t.ev.payload.id) == sr.RequestBy(t.node, i);
  }

  lemma HandleAnnounceTraffic(sr: Series, s: State, c: nat, t: Ticket)
    requires ValidSeries(sr) && TrafficFollows(sr, s, c) && t in s.tickets
    ensures TrafficFollows(sr, AfterHandleAnnounce(sr.cfg, s, t), c)
  {
    hide At, AnnounceHandled, Requests, IsAnnouncement, IsRequest, IsMessage, IsPending, ValidSeries;
    AskedForItem(sr, c, t);
  }

  /** Message `i` can be sent: it is inline, or its file could be opened. */
  predicate IsThere(sr: Series, file: Option<Bytes>, i: nat)
    requires i < |sr.evs|
  {
    IsPath(sr.evs[i].payload.mime) ==> file.Some?
  }

  /** What a request is answered with is the message it asks for, if it is answered: its author holds it, and its file
      is still there. */
  lemma AnswerIs(sr: Series, chan: Chan, n: NodeID, i: nat, file: Option<Bytes>)
    requires ValidSeries(sr) && i < |sr.evs| && HoldsTruly(sr, chan)
    requires file == None || file == Some(sr.raw(sr.evs[i].payload.id))
    ensures Answer(chan, sr.RequestBy(n, i), file)
         == if Lookup(chan, sr.evs[i].payload.id).Some? && IsThere(sr, file, i) then Some(sr.MessageTo(n, i)) else None
  {
    assert IsItem(sr, sr.evs[i]);
    hide ValidSeries, Lookup;
  }

  lemma AnswerIsItem(sr: Series, s: State, c: nat, p: ReqPacket, file: Option<Bytes>)
    requires SourceFollows(sr, s, c) && IsRequest(sr, c, p) && (file == None || file == Some(sr.raw(p.id)))
    ensures
      var answer := Answer(At(s, p.dst).chan, p, file);
      answer.Some? ==> answer.value.dst == p.src && IsMessage(sr, c, answer.value)
  {
    var i :| 0 <= i < c && i < |sr.evs| && p == sr.RequestBy(p.src, i);
    AnswerIs(sr, At(s, sr.author).chan, p.src, i, file);
    assert IsMessage(sr, c, sr.MessageTo(p.src, i));
    hide At, Answer, ValidSeries, IsMessage;
  }

  lemma OneMoreMessage(sr: Series, s: State, c: nat, p: ReqPacket, answer: Option<MsgPacket>)
    requires TrafficFollows(sr, s, c)
    requires answer.Some? ==> answer.value.dst != sr.author && IsMessage(sr, c, answer.value)
    ensures TrafficFollows(sr, s.(reqs := s.reqs - multiset{p}, msgs := s.msgs + Maybe(answer)), c)
  {
    hide IsAnnouncement, IsRequest, IsMessage, IsPending;
  }

  lemma ServeRequestTraffic(sr: Series, s: State, c: nat, p: ReqPacket, file: Option<Bytes>)
    requires SourceFollows(sr, s, c) && p in s.reqs && GoesWell(sr, ServeRequest(p, file))
    ensures TrafficFollows(sr, AfterServeRequest(s, p, file), c)
  {
    hide At, Answer, Maybe, IsAnnouncement, IsRequest, IsMessage, IsPending, ValidSeries, HoldsTruly;
    AnswerIsItem(sr, s, c, p, file);
    OneMoreMessage(sr, s, c, p, Answer(At(s, p.dst).chan, p, file));
  }

  /** What message `i` becomes where it is let through. */
  lemma PassesAsArrived(sr: Series, st: NodeState, n: NodeID, i: nat)
    requires ValidSeries(sr) && i < |sr.evs|
    ensures
      var p := sr.MessageTo(n, i);
      var passed := MessagePasses(st, sr.cfg.Max(n), p.ev, p.raw, Some(sr.store(n, p.ev.payload.id)));
      passed == if sr.evs[i].payload.length <= sr.cfg.Max(n) && Accepts(st.chan, sr.Arrived(n, i))
        then Some(sr.Arrived(n, i)) else None
  {
    ItemFacts(sr, n, i);
    assert IsItem(sr, sr.evs[i]);
    hide ValidSeries, Accepts;
    if !IsPath(sr.evs[i].payload.mime) {
      assert sr.raw(sr.evs[i].payload.id)[..sr.evs[i].payload.length] == sr.store(n, sr.evs[i].payload.id);
    }
  }

  lemma AcceptedIsItem(sr: Series, c: nat, st: NodeState, p: MsgPacket)
    requires ValidSeries(sr) && IsMessage(sr, c, p) && p.dst != sr.author
    ensures
      var accepted := Accepted(st, sr.cfg.Max(p.dst), p, Some(sr.store(p.dst, p.ev.payload.id)));
      accepted.Some? ==> IsPending(sr, c, accepted.value)
  {
    var i :| 0 <= i < c && i < |sr.evs| && p == sr.MessageTo(p.dst, i);
    PassesAsArrived(sr, st, p.dst, i);
    assert IsPending(sr, c, sr.ArrivedAt(p.dst, i));
    hide MessagePasses, ValidSeries, IsPending;
  }

  lemma DeliverMessageTraffic(sr: Series, s: State, c: nat, p: MsgPacket, stored: Option<Bytes>)
    requires ValidSeries(sr) && TrafficFollows(sr, s, c) && p in s.msgs && GoesWell(sr, DeliverMessage(p, stored))
    ensures TrafficFollows(sr, AfterDeliverMessage(sr.cfg, s, p, stored), c)
  {
    hide At, Accepted, MessageHandled, IsAnnouncement, IsRequest, IsMessage, IsPending, ValidSeries;
    AcceptedIsItem(sr, c, At(s, p.dst), p);
  }

  /** Whoever has a message announces it as its author does. */
  lemma ItemsAreAnnounced(sr: Series, c: nat, p: Pending)
    requires ValidSeries(sr) && IsPending(sr, c, p)
    ensures forall a :: a in Announcements(sr.cfg, p.node, p.ev) ==> a.dst != sr.author && IsAnnouncement(sr, c, a.ev)
  {
    var i :| 0 <= i < c && i < |sr.evs|
      && p == if p.node == sr.author then Pending(sr.author, sr.evs[i]) else sr.ArrivedAt(p.node, i);
    ItemFacts(sr, p.node, i);
    hide ValidSeries;
  }

  lemma InjectTraffic(sr: Series, s: State, c: nat, p: Pending)
    requires ValidSeries(sr) && TrafficFollows(sr, s, c) && p in s.pending
    ensures TrafficFollows(sr, AfterInject(sr.cfg, s, p), c)
  {
    hide At, Injected, Announcements, IsAnnouncement, IsRequest, IsMessage, IsPending, ValidSeries;
    ItemsAreAnnounced(sr, c, p);
  }

  lemma ExpireTraffic(sr: Series, s: State, c: nat, n: NodeID, bID: MessageID)
    requires TrafficFollows(sr, s, c)
    ensures TrafficFollows(sr, AfterExpire(s, n, bID), c)
  {
    hide At, IsAnnouncement, IsRequest, IsMessage, IsPending;
  }

  /** Every step keeps the traffic about the series. */
  lemma StepTraffic(sr: Series, s: State, c: nat, step: Step)
    requires SourceFollows(sr, s, c) && Enabled(sr.cfg, s, step) && !Brings(s, step) && GoesWell(sr, step)
    ensures TrafficFollows(sr, Apply(sr.cfg, s, step), c)
  {
    hide ValidSeries, HoldsTruly, TrafficFollows, GoesWell, CopyPasses, CopyEvent;
    hide AfterCopy, AfterDeliverAnnounce, AfterHandleAnnounce, AfterServeRequest, AfterDeliverMessage, AfterInject,
      AfterExpire;
    match step
    case Copy(n, u, id, now) => EchoTraffic(sr, s, c, n, CopyEvent(n, u, id, now));
    case DeliverAnnounce(p) => DeliverAnnounceTraffic(sr, s, c, p);
    case HandleAnnounce(t) => HandleAnnounceTraffic(sr, s, c, t);
    case ServeRequest(p, file) => ServeRequestTraffic(sr, s, c, p, file);
    case DeliverMessage(p, stored) => DeliverMessageTraffic(sr, s, c, p, stored);
    case Inject(i) => InjectTraffic(sr, s, c, i);
    case ExpireBatch(n, bID) => ExpireTraffic(sr, s, c, n, bID);
  }

  /** No step but a copy changes the channel of the author, and none writes its clipboard. */
  lemma StepLeavesAuthor(sr: Series, s: State, c: nat, step: Step)
    requires ValidSeries(sr) && TrafficFollows(sr, s, c) && Enabled(sr.cfg, s, step) && !Brings(s, step)
    ensures At(Apply(sr.cfg, s, step), sr.author).chan == At(s, sr.author).chan
    ensures At(Apply(sr.cfg, s, step), sr.author).clip == At(s, sr.author).clip
  {
    hide ValidSeries, CopyEvent;
    hide AfterCopy, AfterDeliverAnnounce, AfterHandleAnnounce, AfterServeRequest, AfterDeliverMessage, AfterInject,
      AfterExpire, At, IsAnnouncement, IsRequest, IsMessage, IsPending, Announced, Requests, MessageHandled, Injected;
    match step
    case Copy(n, u, id, now) => NodeAfterCopy(sr.cfg, s, n, CopyEvent(n, u, id, now), sr.author);
    case DeliverAnnounce(p) => NodeAfterDeliverAnnounce(s, p, sr.author);
    case HandleAnnounce(t) => NodeAfterHandleAnnounce(sr.cfg, s, t, sr.author);
    case ServeRequest(p, file) => NodeAfterServeRequest(s, p, file, sr.author);
    case DeliverMessage(p, stored) => NodeAfterDeliverMessage(sr.cfg, s, p, stored, sr.author);
    case Inject(i) =>
      NodeAfterInject(sr.cfg, s, i, sr.author);
      OwnIsNotWritten(sr, c, At(s, sr.author), i);
    case ExpireBatch(n, bID) => NodeAfterExpire(s, n, bID, sr.author);
  }

  lemma OwnIsNotWritten(sr: Series, c: nat, st: NodeState, p: Pending)
    requires ValidSeries(sr) && IsPending(sr, c, p)
    ensures p.node == sr.author ==> Injected(st, sr.author, p.ev) == st
  {
    var i :| 0 <= i < c && i < |sr.evs|
      && p == if p.node == sr.author then Pending(sr.author, sr.evs[i]) else sr.ArrivedAt(p.node, i);
    assert IsItem(sr, sr.evs[i]);
  }

  lemma StepSource(sr: Series, s: State, c: nat, step: Step)
    requires SourceFollows(sr, s, c) && Enabled(sr.cfg, s, step) && !Brings(s, step) && GoesWell(sr, step)
    ensures SourceFollows(sr, Apply(sr.cfg, s, step), c)
  {
    hide ValidSeries, TrafficFollows, HoldsTruly, Apply, Enabled, Brings, GoesWell, At;
    StepTraffic(sr, s, c, step);
    StepLeavesAuthor(sr, s, c, step);
  }
}
