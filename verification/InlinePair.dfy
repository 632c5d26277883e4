/** Two texts copied one after the other at one of two nodes: the earlier may come last to the other's clipboard. */
module InlinePair {
  import opened Wrappers
  import opened Machine
  import opened Domain
  import opened Channel
  import opened History
  import opened Node
  import opened Gossip
  import opened GossipSafety
  import opened GossipTermination
  import opened CopySeries
  import opened SeriesFlow
  import opened SeriesAsks
  import opened InlineSeries
  import FilePair

  /** The copy of the one-letter text `letter`. */
  function TextUpdate(letter: Byte): Update {
    Update([letter], 1, MIME_TEXT, letter, 0, 0)
  }

  /** The message for it as its author, node 0, and the other node hold it. */
  function Text(letter: Byte): EventMessage {
    Event(0, 0, Message(letter, [letter], MIME_TEXT, letter, 1, [], 0, 0))
  }

  function TextAnnounce(letter: Byte): EventAnnounce {
    AnnounceAsReceived(AnnounceOf(Text(letter)))
  }

  function TextRequest(letter: Byte): ReqPacket {
    ReqPacket(1, 0, letter)
  }

  function TextMessage(letter: Byte): MsgPacket {
    MsgPacket(0, 1, AsReceived(Text(letter)), [letter])
  }

  const A: Byte := 65
  const B: Byte := 66

  function Texts(): Series {
    Series(FilePair.PAIR, Initial(FilePair.PAIR), 0, [Text(A), Text(B)], id => if id == A then [A] else [B],
           (n, id) => if id == A then [A] else [B])
  }

  // ---------------------------------------------------------------- a run, state by state

  /** The author once it has copied `letter`. */
  function AuthorWith(letter: Byte): NodeState {
    NEW_NODE.(chan := NEW_CHAN.(last := Text(letter)), current := Text(letter).payload)
  }

  /** The peer with these announces in its filter, this last message, and this clipboard. */
  function Peer(heard: seq<Byte>, last: EventMessage, clip: seq<Byte>): NodeState {
    NodeState(Chan(last, Filter(heard), Fifo([], map[])), ZERO_MESSAGE, map[], Clip(clip))
  }

  function Filter(heard: seq<Byte>): Fifo<Uint64, EventAnnounce> {
    if heard == [] then Fifo([], map[])
    else if heard == [A] then Fifo([A], map[A := TextAnnounce(A)])
    else Fifo([A, B], map[A := TextAnnounce(A), B := TextAnnounce(B)])
  }

  function Clip(letters: seq<Byte>): seq<ClipWrite> {
    seq(|letters|, k requires 0 <= k < |letters| => Whole(Text(letters[k]).payload))
  }

  function Published(letters: seq<Byte>): map<MessageID, Message> {
    if letters == [] then map[]
    else if letters == [A] then map[A := Text(A).payload]
    else map[A := Text(A).payload, B := Text(B).payload]
  }

  /** A mesh of the two nodes. */
  function Mesh(author: NodeState, peer: NodeState, anns: multiset<AnnPacket>, tickets: multiset<Ticket>,
                reqs: multiset<ReqPacket>, msgs: multiset<MsgPacket>, pending: multiset<Pending>, pub: seq<Byte>): State
  {
    State(map[0 := author, 1 := peer], anns, tickets, reqs, msgs, pending, Published(pub))
  }

  ghost predicate Leads(s: State, step: Step, t: State) {
    Enabled(FilePair.PAIR, s, step) && Apply(FilePair.PAIR, s, step) == t
  }

  function Told(letter: Byte): AnnPacket {
    AnnPacket(0, 1, TextAnnounce(letter))
  }

  lemma PairIs()
    ensures FilePair.PAIR.nodes == {0, 1} && FilePair.PAIR.Peers(0) == {1} && FilePair.PAIR.Peers(1) == {0}
    ensures FilePair.PAIR.Max(1) == 9
  {
  }

  lemma CopyLeads(author: NodeState, peer: NodeState, msgs: multiset<MsgPacket>, before: seq<Byte>, pub: seq<Byte>,
                  letter: Byte)
    requires CopyPasses(author, Text(letter)) && letter as int !in Published(before)
    requires Published(pub) == Published(before)[letter as int := Text(letter).payload]
    ensures Leads(Mesh(author, peer, multiset{}, multiset{}, multiset{}, msgs, multiset{}, before),
                  Copy(0, TextUpdate(letter), letter, 0),
                  Mesh(Copied(author, Text(letter)), peer, multiset{}, multiset{}, multiset{}, msgs,
                       multiset{Pending(0, Text(letter))}, pub))
  {
    PairIs();
    assert CopyEvent(0, TextUpdate(letter), letter, 0) == Text(letter);
    hide Accepts, Sent, CopyEvent, Published, Text;
  }

  lemma TellLeads(author: NodeState, peer: NodeState, msgs: multiset<MsgPacket>, pub: seq<Byte>, letter: Byte)
    ensures Leads(Mesh(author, peer, multiset{}, multiset{}, multiset{}, msgs, multiset{Pending(0, Text(letter))}, pub),
                  Inject(Pending(0, Text(letter))),
                  Mesh(author, peer, multiset{Told(letter)}, multiset{}, multiset{}, msgs, multiset{}, pub))
  {
    PairIs();
    assert FilePair.PAIR.Peers(0) - {Text(letter).from} == {1};
    assert Announcements(FilePair.PAIR, 0, Text(letter)) == {Told(letter)};
    hide Announcements, Published, TextAnnounce;
    assert multiset({Told(letter)}) == multiset{Told(letter)};
  }

  lemma HearLeads(author: NodeState, peer: NodeState, msgs: multiset<MsgPacket>, pub: seq<Byte>, letter: Byte)
    requires IsNews(peer.chan, TextAnnounce(letter))
    ensures Leads(Mesh(author, peer, multiset{Told(letter)}, multiset{}, multiset{}, msgs, multiset{}, pub),
                  DeliverAnnounce(Told(letter)),
                  Mesh(author, peer.(chan := Announced(peer.chan, TextAnnounce(letter))), multiset{},
                       multiset{Ticket(1, TextAnnounce(letter))}, multiset{}, msgs, multiset{}, pub))
  {
    hide Announced, IsNews, TextAnnounce, Published;
  }

  lemma AskLeads(author: NodeState, peer: NodeState, msgs: multiset<MsgPacket>, pub: seq<Byte>, letter: Byte)
    requires Requests(peer, {0}, 9, TextAnnounce(letter))
    ensures Leads(Mesh(author, peer, multiset{}, multiset{Ticket(1, TextAnnounce(letter))}, multiset{}, msgs,
                       multiset{}, pub),
                  HandleAnnounce(Ticket(1, TextAnnounce(letter))),
                  Mesh(author, peer, multiset{}, multiset{}, multiset{TextRequest(letter)}, msgs, multiset{}, pub))
  {
    PairIs();
    assert TextAnnounce(letter).from == 0 && TextAnnounce(letter).payload.id == letter;
    hide TextAnnounce, Published, Refused;
  }

  lemma ServeLeads(author: NodeState, peer: NodeState, msgs: multiset<MsgPacket>, pub: seq<Byte>, letter: Byte)
    requires author.chan.last == Text(letter)
    ensures Leads(Mesh(author, peer, multiset{}, multiset{}, multiset{TextRequest(letter)}, msgs, multiset{}, pub),
                  ServeRequest(TextRequest(letter), Some([letter])),
                  Mesh(author, peer, multiset{}, multiset{}, multiset{}, msgs + multiset{TextMessage(letter)},
                       multiset{}, pub))
  {
    assert Answer(author.chan, TextRequest(letter), Some([letter])) == Some(TextMessage(letter));
    hide Answer, Published, TextMessage, TextRequest, Text;
  }

  lemma TakeLeads(author: NodeState, peer: NodeState, msgs: multiset<MsgPacket>, pub: seq<Byte>, letter: Byte)
    requires Accepts(peer.chan, Text(letter))
    ensures Leads(Mesh(author, peer, multiset{}, multiset{}, multiset{}, msgs + multiset{TextMessage(letter)},
                       multiset{}, pub),
                  DeliverMessage(TextMessage(letter), Some([letter])),
                  Mesh(author, peer.(chan := peer.chan.(last := Text(letter))), multiset{}, multiset{}, multiset{},
                       msgs, multiset{Pending(1, Text(letter))}, pub))
  {
    PairIs();
    assert [letter][..1] == [letter];
    assert WithData(AsReceived(Text(letter)), [letter]) == Text(letter);
    assert Accepted(peer, 9, TextMessage(letter), Some([letter])) == Some(Pending(1, Text(letter)));
    assert MessageHandled(peer, 9, TextMessage(letter).ev, TextMessage(letter).raw, Some([letter]))
        == peer.(chan := peer.chan.(last := Text(letter)));
    hide Accepted, MessageHandled, Published, TextMessage, Text, Accepts;
    assert (msgs + multiset{TextMessage(letter)}) - multiset{TextMessage(letter)} == msgs;
    TextGoesToPeer(letter);
  }

  lemma TextGoesToPeer(letter: Byte)
    ensures TextMessage(letter).dst == 1
  {
  }

  lemma WriteLeads(author: NodeState, peer: NodeState, msgs: multiset<MsgPacket>, pub: seq<Byte>, letter: Byte)
    ensures Leads(Mesh(author, peer, multiset{}, multiset{}, multiset{}, msgs, multiset{Pending(1, Text(letter))}, pub),
                  Inject(Pending(1, Text(letter))),
                  Mesh(author, peer.(clip := peer.clip + [Whole(Text(letter).payload)]), multiset{}, multiset{},
                       multiset{}, msgs, multiset{}, pub))
  {
    PairIs();
    assert FilePair.PAIR.Peers(1) - {Text(letter).from} == {};
    assert Announcements(FilePair.PAIR, 1, Text(letter)) == {};
    hide Announcements, Published;
    var none: set<AnnPacket> := {};
    assert multiset(none) == multiset{};
  }

  // ---------------------------------------------------------------- the whole run

  /** `steps` lead from `s`, where `c` of the texts have been copied, to `end`. */
  ghost predicate Reaches(s: State, c: nat, steps: seq<Step>, end: State) {
    && CanRun(FilePair.PAIR, s, steps) && CopiesInOrder(Texts(), s, c, steps)
    && Gossip.Run(FilePair.PAIR, s, steps) == end
  }

  lemma Prepend(s: State, step: Step, t: State, c: nat, steps: seq<Step>, end: State) returns (all: seq<Step>)
    requires Leads(s, step, t) && Reaches(t, c, steps, end) && !step.Copy? && GoesWell(Texts(), step)
    ensures Reaches(s, c, all, end)
  {
    all := [step] + steps;
    OnlyCopiesBring(s, step);
    assert Texts().cfg == FilePair.PAIR;
    hide Apply, Enabled, GoesWell, Brings;
    RunFrom(Texts(), s, c, step, c, steps);
  }

  lemma PrependCopy(s: State, letter: Byte, t: State, c: nat, steps: seq<Step>, end: State) returns (all: seq<Step>)
    requires Leads(s, Copy(0, TextUpdate(letter), letter, 0), t) && Reaches(t, c + 1, steps, end)
    requires c < 2 && letter == [A, B][c] && CopyPasses(At(s, 0), Text(letter))
    ensures Reaches(s, c, all, end)
  {
    var step := Copy(0, TextUpdate(letter), letter, 0);
    all := [step] + steps;
    assert CopyEvent(0, TextUpdate(letter), letter, 0) == Text(letter) == Texts().evs[c];
    assert Texts().cfg == FilePair.PAIR && Texts().author == 0;
    hide Apply, Enabled, CopyPasses, CopyEvent, Text, At, Texts;
    assert Brings(s, step);
    RunFrom(Texts(), s, c, step, c + 1, steps);
  }

  lemma AuthorFacts()
    ensures CopyPasses(NEW_NODE, Text(A)) && Copied(NEW_NODE, Text(A)) == AuthorWith(A)
    ensures CopyPasses(AuthorWith(A), Text(B)) && Copied(AuthorWith(A), Text(B)) == AuthorWith(B)
    ensures AuthorWith(A).chan.last == Text(A) && AuthorWith(B).chan.last == Text(B)
  {
  }

  lemma PeerHears()
    ensures Peer([], ZERO_EVENT, []) == NEW_NODE
    ensures IsNews(Peer([], ZERO_EVENT, []).chan, TextAnnounce(A))
    ensures NEW_NODE.(chan := Announced(NEW_NODE.chan, TextAnnounce(A))) == Peer([A], ZERO_EVENT, [])
    ensures IsNews(Peer([A], ZERO_EVENT, []).chan, TextAnnounce(B))
    ensures var p := Peer([A], ZERO_EVENT, []);
      p.(chan := Announced(p.chan, TextAnnounce(B))) == Peer([A, B], ZERO_EVENT, [])
  {
    assert Clip([]) == [];
    assert map[A as int := TextAnnounce(A)][B as int := TextAnnounce(B)]
        == map[A := TextAnnounce(A), B := TextAnnounce(B)];
  }

  lemma PeerAsks()
    ensures Requests(Peer([A], ZERO_EVENT, []), {0}, 9, TextAnnounce(A))
    ensures Requests(Peer([A, B], ZERO_EVENT, []), {0}, 9, TextAnnounce(B))
  {
  }

  lemma PeerTakes()
    ensures Accepts(Peer([A, B], ZERO_EVENT, []).chan, Text(B)) && Accepts(Peer([A, B], Text(B), [B]).chan, Text(A))
    ensures var p := Peer([A, B], ZERO_EVENT, []); p.(chan := p.chan.(last := Text(B))) == Peer([A, B], Text(B), [])
    ensures var p := Peer([A, B], Text(B), [B]); p.(chan := p.chan.(last := Text(A))) == Peer([A, B], Text(A), [B])
  {
  }

  lemma PeerWrites()
    ensures var p := Peer([A, B], Text(B), []);
      p.(clip := p.clip + [Whole(Text(B).payload)]) == Peer([A, B], Text(B), [B])
    ensures var p := Peer([A, B], Text(A), [B]);
      p.(clip := p.clip + [Whole(Text(A).payload)]) == Peer([A, B], Text(A), [B, A])
    ensures Clip([B, A]) == [Whole(Text(B).payload), Whole(Text(A).payload)]
  {
    assert Clip([]) + [Whole(Text(B).payload)] == Clip([B]);
    assert Clip([B]) + [Whole(Text(A).payload)] == Clip([B, A]);
  }

  function EndState(): State {
    Mesh(AuthorWith(B), Peer([A, B], Text(A), [B, A]), multiset{}, multiset{}, multiset{}, multiset{}, multiset{},
         [A, B])
  }

  lemma AtEnd()
    ensures Reaches(EndState(), 2, [], EndState())
  {
  }

  lemma WritingGoesWell()
    ensures forall p :: GoesWell(Texts(), Inject(p))
  {
  }

  lemma TextsAreTaken()
    ensures GoesWell(Texts(), DeliverMessage(TextMessage(A), Some([A])))
    ensures GoesWell(Texts(), DeliverMessage(TextMessage(B), Some([B])))
  {
  }

  /** The second text arrives, and then the first, which was on its way before. */
  lemma BothArrive() returns (steps: seq<Step>)
    ensures Reaches(Mesh(AuthorWith(B), Peer([A, B], ZERO_EVENT, []), multiset{}, multiset{}, multiset{},
                         multiset{TextMessage(A), TextMessage(B)}, multiset{}, [A, B]), 2, steps, EndState())
  {
    PeerTakes();
    PeerWrites();
    TextsAreTaken();
    hide Leads, Reaches, Peer, AuthorWith, Published, TextMessage, Text, Accepts, Clip, GoesWell;
    var none: multiset<MsgPacket>, one := multiset{}, multiset{TextMessage(A)};
    assert none + multiset{TextMessage(A)} == one;
    assert one + multiset{TextMessage(B)} == multiset{TextMessage(A), TextMessage(B)};
    var n0, pub := AuthorWith(B), [A, B];
    steps := [];
    AtEnd();
    WriteLeads(n0, Peer([A, B], Text(A), [B]), none, pub, A);
    assert forall p :: GoesWell(Texts(), Inject(p)) by { WritingGoesWell(); }
    steps := Prepend(Mesh(n0, Peer([A, B], Text(A), [B]), multiset{}, multiset{}, multiset{}, none,
                          multiset{Pending(1, Text(A))}, pub), Inject(Pending(1, Text(A))), EndState(), 2, steps,
                     EndState());
    TakeLeads(n0, Peer([A, B], Text(B), [B]), none, pub, A);
    steps := Prepend(Mesh(n0, Peer([A, B], Text(B), [B]), multiset{}, multiset{}, multiset{}, one, multiset{}, pub),
                     DeliverMessage(TextMessage(A), Some([A])),
                     Mesh(n0, Peer([A, B], Text(A), [B]), multiset{}, multiset{}, multiset{}, none,
                          multiset{Pending(1, Text(A))}, pub), 2, steps, EndState());
    WriteLeads(n0, Peer([A, B], Text(B), []), one, pub, B);
    steps := Prepend(Mesh(n0, Peer([A, B], Text(B), []), multiset{}, multiset{}, multiset{}, one,
                          multiset{Pending(1, Text(B))}, pub), Inject(Pending(1, Text(B))),
                     Mesh(n0, Peer([A, B], Text(B), [B]), multiset{}, multiset{}, multiset{}, one, multiset{}, pub), 2,
                     steps, EndState());
    TakeLeads(n0, Peer([A, B], ZERO_EVENT, []), one, pub, B);
    steps := Prepend(Mesh(n0, Peer([A, B], ZERO_EVENT, []), multiset{}, multiset{}, multiset{},
                          one + multiset{TextMessage(B)}, multiset{}, pub),
                     DeliverMessage(TextMessage(B), Some([B])),
                     Mesh(n0, Peer([A, B], Text(B), []), multiset{}, multiset{}, multiset{}, one,
                          multiset{Pending(1, Text(B))}, pub), 2, steps, EndState());
  }

  /** A text is announced, requested and sent while `msgs` are on their way. */
  lemma IsSent(n0: NodeState, before: NodeState, after: NodeState, msgs: multiset<MsgPacket>, pub: seq<Byte>,
               letter: Byte, c: nat, steps: seq<Step>) returns (all: seq<Step>)
    requires n0.chan.last == Text(letter) && letter in [A, B] && IsNews(before.chan, TextAnnounce(letter))
    requires after == before.(chan := Announced(before.chan, TextAnnounce(letter)))
    requires Requests(after, {0}, 9, TextAnnounce(letter))
    requires Reaches(Mesh(n0, after, multiset{}, multiset{}, multiset{}, msgs + multiset{TextMessage(letter)},
                          multiset{}, pub), c, steps, EndState())
    ensures Reaches(Mesh(n0, before, multiset{}, multiset{}, multiset{}, msgs, multiset{Pending(0, Text(letter))}, pub),
                    c, all, EndState())
  {
    hide Leads, Reaches, Published, TextMessage, Text, Requests, IsNews, Announced, TextAnnounce, EndState;
    ServeLeads(n0, after, msgs, pub, letter);
    all := Prepend(Mesh(n0, after, multiset{}, multiset{}, multiset{TextRequest(letter)}, msgs, multiset{}, pub),
                   ServeRequest(TextRequest(letter), Some([letter])),
                   Mesh(n0, after, multiset{}, multiset{}, multiset{}, msgs + multiset{TextMessage(letter)}, multiset{},
                        pub), c, steps, EndState());
    AskLeads(n0, after, msgs, pub, letter);
    all := Prepend(Mesh(n0, after, multiset{}, multiset{Ticket(1, TextAnnounce(letter))}, multiset{}, msgs, multiset{},
                        pub),
                   HandleAnnounce(Ticket(1, TextAnnounce(letter))),
                   Mesh(n0, after, multiset{}, multiset{}, multiset{TextRequest(letter)}, msgs, multiset{}, pub),
                   c, all, EndState());
    HearLeads(n0, before, msgs, pub, letter);
    all := Prepend(Mesh(n0, before, multiset{Told(letter)}, multiset{}, multiset{}, msgs, multiset{}, pub),
                   DeliverAnnounce(Told(letter)),
                   Mesh(n0, after, multiset{}, multiset{Ticket(1, TextAnnounce(letter))}, multiset{}, msgs, multiset{},
                        pub),
                   c, all, EndState());
    TellLeads(n0, before, msgs, pub, letter);
    all := Prepend(Mesh(n0, before, multiset{}, multiset{}, multiset{}, msgs, multiset{Pending(0, Text(letter))}, pub),
                   Inject(Pending(0, Text(letter))),
                   Mesh(n0, before, multiset{Told(letter)}, multiset{}, multiset{}, msgs, multiset{}, pub), c, all,
                   EndState());
  }

  lemma PublishedMore()
    ensures A as int !in Published([]) && Published([A]) == Published([])[A as int := Text(A).payload]
    ensures B as int !in Published([A]) && Published([A, B]) == Published([A])[B as int := Text(B).payload]
    ensures Initial(FilePair.PAIR) ==
      Mesh(NEW_NODE, NEW_NODE, multiset{}, multiset{}, multiset{}, multiset{}, multiset{}, [])
  {
  }

  /** Two texts copied one after the other in a new mesh of two nodes: there is a run to rest after which the other
      node's clipboard ends on the first. */
  lemma EarlierCopyMayComeLast() returns (steps: seq<Step>)
    ensures ValidInline(Texts()) && Wants(Texts(), 1)
    ensures CanRun(FilePair.PAIR, Initial(FilePair.PAIR), steps)
    ensures CopiesInOrder(Texts(), Initial(FilePair.PAIR), 0, steps)
    ensures
      var end := Gossip.Run(FilePair.PAIR, Initial(FilePair.PAIR), steps);
      Quiescent(end) && At(end, 1).clip == [Whole(Text(B).payload), Whole(Text(A).payload)]
  {
    TextsAreCopied();
    PublishedMore();
    AuthorFacts();
    PeerHears();
    PeerAsks();
    PeerWrites();
    hide ValidInline, Wants, Texts, Leads, Reaches, Peer, AuthorWith, Published, TextMessage, Text, Requests, IsNews,
      Announced, TextAnnounce, Clip, Accepts, CopyPasses, Copied;
    var none: multiset<MsgPacket>, one := multiset{}, multiset{TextMessage(A)};
    assert none + multiset{TextMessage(A)} == one;
    assert one + multiset{TextMessage(B)} == multiset{TextMessage(A), TextMessage(B)};
    var p0, p1, p2 := NEW_NODE, Peer([A], ZERO_EVENT, []), Peer([A, B], ZERO_EVENT, []);
    steps := BothArrive();
    steps := IsSent(AuthorWith(B), p1, p2, one, [A, B], B, 2, steps);
    CopyLeads(AuthorWith(A), p1, one, [A], [A, B], B);
    steps := PrependCopy(Mesh(AuthorWith(A), p1, multiset{}, multiset{}, multiset{}, one, multiset{}, [A]), B,
                         Mesh(AuthorWith(B), p1, multiset{}, multiset{}, multiset{}, one, multiset{Pending(0, Text(B))},
                              [A, B]), 1, steps, EndState());
    steps := IsSent(AuthorWith(A), p0, p1, none, [A], A, 1, steps);
    CopyLeads(NEW_NODE, p0, none, [], [A], A);
    steps := PrependCopy(Initial(FilePair.PAIR), A,
                         Mesh(AuthorWith(A), p0, multiset{}, multiset{}, multiset{}, none,
                              multiset{Pending(0, Text(A))}, [A]), 0, steps, EndState());
    ReachesMeans(Initial(FilePair.PAIR), steps);
  }

  lemma ReachesMeans(s: State, steps: seq<Step>)
    requires Reaches(s, 0, steps, EndState())
    ensures CanRun(FilePair.PAIR, s, steps) && CopiesInOrder(Texts(), s, 0, steps)
    ensures var end := Gossip.Run(FilePair.PAIR, s, steps); Quiescent(end) && At(end, 1).clip == Clip([B, A])
  {
  }

  /** They are a series of copies, new to the other node. */
  lemma TextsAreCopied()
    ensures ValidInline(Texts()) && Wants(Texts(), 1)
  {
    FilePair.NewPairIsGood();
    PairIs();
    hide Inv, ValidFilters;
  }
}
