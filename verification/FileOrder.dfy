/** A content that a full announce filter holds but does not keep: whether a copy of files arrives is decided by which
    announce comes first. */
module FileOrder {
  import opened Machine
  import opened Domain
  import opened Channel
  import opened History
  import opened Node
  import opened Gossip
  import opened GossipSafety
  import opened GossipTermination
  import opened CopySeries
  import opened SeriesFlow
  import opened SeriesAsks
  import opened FileCopies
  import opened FileLoss
  import opened FileDelivery
  import opened FilePair

  /** What node 0 has published before, and node 1 has let through. */
  function OldMessage(k: nat): Message
    requires k < 5
  {
    Message(4000 + k, [65], MIME_PATH, if k == 0 then 1 else 90 + k, 1, [65], 0, 0)
  }

  function OldAnnounce(k: nat): EventAnnounce
    requires k < 5
  {
    AnnounceAsReceived(AnnounceOf(Event(0, 0, OldMessage(k))))
  }

  /** The filter is full, and the content of the first file is its oldest. */
  const FULL: Fifo<Uint64, EventAnnounce> := Fifo([1, 91, 92, 93, 94],
    map[1 := OldAnnounce(0), 91 := OldAnnounce(1), 92 := OldAnnounce(2), 93 := OldAnnounce(3), 94 := OldAnnounce(4)])

  const PUBLISHED: map<MessageID, Message> := map[4000 := OldMessage(0), 4001 := OldMessage(1), 4002 := OldMessage(2),
    4003 := OldMessage(3), 4004 := OldMessage(4)]

  function Peer(filter: Fifo<Uint64, EventAnnounce>): NodeState {
    NEW_NODE.(chan := NEW_CHAN.(announced := filter))
  }

  function Start(): State {
    State(map[0 := NEW_NODE, 1 := Peer(FULL)], multiset{}, multiset{}, multiset{}, multiset{}, multiset{}, PUBLISHED)
  }

  function Files(): FileCopy {
    FilesInPair(Start(), 2)
  }

  lemma PublishedIsGood()
    ensures GoodPublished(PAIR, PUBLISHED)
  {
  }

  lemma PeerIsGood()
    ensures GoodNode(PUBLISHED, 1, Peer(FULL)) && ValidFifo(FULL, HISTORY_SIZE)
  {
  }

  lemma StartIsGood()
    ensures Inv(PAIR, Start()) && ValidFilters(Start()) && Quiescent(Start())
  {
    hide ValidConfig, GoodPublished, GoodNode, ValidFifo;
    PairIsValid();
    PublishedIsGood();
    PeerIsGood();
    assert GoodNode(PUBLISHED, 0, NEW_NODE) by { NewIsGood(); }
    EmptyIsValid();
  }

  lemma NewIsGood()
    ensures GoodNode(PUBLISHED, 0, NEW_NODE)
  {
  }

  lemma EmptyIsValid()
    ensures ValidFifo(NEW_CHAN.announced, HISTORY_SIZE) && ValidFifo(NEW_CHAN.served, HISTORY_SIZE)
  {
  }

  lemma FilesAreCopied()
    ensures ValidCopy(Files()) && CanTake(Files(), 1) && Files().sr.IsNotLastOf(1)
  {
    hide Inv, ValidFilters, ValidCopy;
    StartIsGood();
    FilesInPairAreCopied(Start(), 2);
    PeerOfPair();
    assert Files().sr.evs[0] == FileEvent(0, 2) && Files().sr.evs[1] == FileEvent(1, 2);
  }

  // ---------------------------------------------------------------- the first four steps

  function FileUpdate(i: nat): Update
    requires i < 2
  {
    Update([65], 1, MIME_PATH, i + 1, 7, 2)
  }

  function FileCopyStep(i: nat): Step
    requires i < 2
  {
    Copy(0, FileUpdate(i), i + 1, 0)
  }

  lemma CopyIsFile(i: nat)
    requires i < 2
    ensures CopyEvent(0, FileUpdate(i), i + 1, 0) == FileEvent(i, 2)
  {
    assert Base([65]) == [65] by {
      assert TrimSlashes([65]) == [65];
      assert [65][..0] == [] && LastElement([]) == [];
    }
  }

  function Told(i: nat): AnnPacket
    requires i < 2
  {
    AnnPacket(0, 1, AnnounceAsReceived(AnnounceOf(FileEvent(i, 2))))
  }

  /** Both files are copied, then file `i` is announced, and its announce delivered. */
  function FirstSteps(i: nat): seq<Step>
    requires i < 2
  {
    [FileCopyStep(0), FileCopyStep(1), Inject(Pending(0, FileEvent(i, 2))), DeliverAnnounce(Told(i))]
  }

  function AuthorAfter(c: nat): NodeState {
    if c == 0 then NEW_NODE else if c == 1 then Copied(NEW_NODE, FileEvent(0, 2))
    else Copied(Copied(NEW_NODE, FileEvent(0, 2)), FileEvent(1, 2))
  }

  function PublishedAfter(c: nat): map<MessageID, Message> {
    if c == 0 then PUBLISHED else if c == 1 then PUBLISHED[1 := FileEvent(0, 2).payload]
    else PUBLISHED[1 := FileEvent(0, 2).payload][2 := FileEvent(1, 2).payload]
  }

  function Mesh(c: nat, peer: NodeState, anns: multiset<AnnPacket>, tickets: multiset<Ticket>,
                pending: multiset<Pending>): State {
    State(map[0 := AuthorAfter(c), 1 := peer], anns, tickets, multiset{}, multiset{}, pending, PublishedAfter(c))
  }

  ghost predicate Leads(s: State, step: Step, t: State) {
    Enabled(PAIR, s, step) && Apply(PAIR, s, step) == t
  }

  lemma FilesPass()
    ensures CopyPasses(NEW_NODE, FileEvent(0, 2)) && CopyPasses(AuthorAfter(1), FileEvent(1, 2))
  {
  }

  lemma CopyLeads(c: nat, pending: multiset<Pending>)
    requires c < 2
    ensures CopyPasses(AuthorAfter(c), FileEvent(c, 2))
    ensures Leads(Mesh(c, Peer(FULL), multiset{}, multiset{}, pending), FileCopyStep(c),
                  Mesh(c + 1, Peer(FULL), multiset{}, multiset{}, pending + multiset{Pending(0, FileEvent(c, 2))}))
  {
    hide Copied, CopyPasses, CopyEvent, FileEvent, Peer, FileUpdate, IsNewCopy, PublishedAfter, AuthorAfter;
    FilesPass();
    CopyIsFile(c);
    CopyIsPublished(c);
    PairHasAuthor();
  }

  lemma PairHasAuthor()
    ensures 0 in PAIR.nodes
  {
  }

  lemma CopyIsPublished(c: nat)
    requires c < 2
    ensures CopyPasses(AuthorAfter(c), FileEvent(c, 2)) ==> IsNewCopy(AuthorAfter(c), FileEvent(c, 2).payload)
    ensures FileEvent(c, 2).payload.id == c + 1 && c + 1 !in PublishedAfter(c) && AuthorAfter(0) == NEW_NODE
    ensures |FileUpdate(c).data| < TWO64 && Author(c + 1) == 0
    ensures PublishedAfter(c + 1) == PublishedAfter(c)[c + 1 := FileEvent(c, 2).payload]
    ensures AuthorAfter(c + 1) == Copied(AuthorAfter(c), FileEvent(c, 2))
  {
  }

  lemma TellLeads(i: nat, pending: multiset<Pending>)
    requires i < 2
    ensures Leads(Mesh(2, Peer(FULL), multiset{}, multiset{}, pending + multiset{Pending(0, FileEvent(i, 2))}),
                  Inject(Pending(0, FileEvent(i, 2))),
                  Mesh(2, Peer(FULL), multiset{Told(i)}, multiset{}, pending))
  {
    PeerOfPair();
    assert FileEvent(i, 2).from == 0;
    assert PAIR.Peers(0) - {FileEvent(i, 2).from} == {1};
    assert Announcements(PAIR, 0, FileEvent(i, 2)) == {Told(i)};
    hide Announcements, FileEvent, Told, Peer, AuthorAfter, PublishedAfter;
    assert multiset({Told(i)}) == multiset{Told(i)};
    assert pending + multiset{Pending(0, FileEvent(i, 2))} - multiset{Pending(0, FileEvent(i, 2))} == pending;
  }

  /** The first file's announce is taken for an old one; the second's pushes the first content out. */
  const PUSHED: Fifo<Uint64, EventAnnounce> := Fifo([91, 92, 93, 94, 2],
    map[91 := OldAnnounce(1), 92 := OldAnnounce(2), 93 := OldAnnounce(3), 94 := OldAnnounce(4), 2 := Told(1).ev])

  lemma OldIsNoNews()
    ensures !IsNews(Peer(FULL).chan, Told(0).ev) && Announced(Peer(FULL).chan, Told(0).ev) == Peer(FULL).chan
  {
  }

  lemma NewPushesOld()
    ensures IsNews(Peer(FULL).chan, Told(1).ev)
    ensures Peer(FULL).(chan := Announced(Peer(FULL).chan, Told(1).ev)) == Peer(PUSHED)
  {
    assert FULL.order[1..] + [2] == PUSHED.order;
    assert (FULL.data - {1})[2 := Told(1).ev] == PUSHED.data;
  }

  lemma DropLeads(pending: multiset<Pending>)
    ensures Leads(Mesh(2, Peer(FULL), multiset{Told(0)}, multiset{}, pending), DeliverAnnounce(Told(0)),
                  Mesh(2, Peer(FULL), multiset{}, multiset{}, pending))
  {
    OldIsNoNews();
    hide Announced, IsNews, Peer, AuthorAfter, PublishedAfter, FileEvent;
  }

  lemma PushLeads(pending: multiset<Pending>)
    ensures Leads(Mesh(2, Peer(FULL), multiset{Told(1)}, multiset{}, pending), DeliverAnnounce(Told(1)),
                  Mesh(2, Peer(PUSHED), multiset{}, multiset{Ticket(1, Told(1).ev)}, pending))
  {
    NewPushesOld();
    hide Announced, IsNews, Peer, AuthorAfter, PublishedAfter, FileEvent;
  }

  /** The state after the first four steps. */
  function After(i: nat): State
    requires i < 2
  {
    if i == 0 then Mesh(2, Peer(FULL), multiset{}, multiset{}, multiset{Pending(0, FileEvent(1, 2))})
    else Mesh(2, Peer(PUSHED), multiset{}, multiset{Ticket(1, Told(1).ev)}, multiset{Pending(0, FileEvent(0, 2))})
  }

  ghost predicate Reaches(s: State, c: nat, steps: seq<Step>, end: State) {
    && CanRun(PAIR, s, steps) && CopiesInOrder(Files().sr, s, c, steps) && Gossip.Run(PAIR, s, steps) == end
  }

  lemma Prepend(s: State, step: Step, t: State, steps: seq<Step>, end: State)
    requires Leads(s, step, t) && Reaches(t, 2, steps, end) && (step.Inject? || step.DeliverAnnounce?)
    ensures Reaches(s, 2, [step] + steps, end)
  {
    FilesAre();
    OnlyCopiesBring(s, step);
    hide Apply, Enabled, Brings, Files;
    RunFrom(Files().sr, s, 2, step, 2, steps);
  }

  lemma PrependCopy(s: State, c: nat, t: State, steps: seq<Step>, end: State)
    requires c < 2 && Leads(s, FileCopyStep(c), t) && Reaches(t, c + 1, steps, end)
    requires CopyPasses(At(s, 0), FileEvent(c, 2))
    ensures Reaches(s, c, [FileCopyStep(c)] + steps, end)
  {
    FilesAre();
    CopyIsFile(c);
    hide Apply, Enabled, CopyPasses, CopyEvent, FileEvent, Files, At;
    assert Brings(s, FileCopyStep(c));
    RunFrom(Files().sr, s, c, FileCopyStep(c), c + 1, steps);
  }

  lemma FilesAre()
    ensures var sr := Files().sr; sr.cfg == PAIR && sr.author == 0 && sr.start == Start() && |sr.evs| == 2
    ensures Files().sr.evs[0] == FileEvent(0, 2) && Files().sr.evs[1] == FileEvent(1, 2) && Files().total == 2
  {
  }

  lemma AfterIsAtEnd(i: nat)
    requires i < 2
    ensures Reaches(After(i), 2, [], After(i))
  {
    FilesAre();
  }

  lemma StartIs()
    ensures Start() == Mesh(0, Peer(FULL), multiset{}, multiset{}, multiset{})
  {
  }

  lemma AuthorIs(c: nat, peer: NodeState, anns: multiset<AnnPacket>, tickets: multiset<Ticket>,
                 pending: multiset<Pending>)
    ensures At(Mesh(c, peer, anns, tickets, pending), 0) == AuthorAfter(c)
  {
  }

  function Waiting(i: nat): multiset<Pending>
    requires i < 2
  {
    multiset{Pending(0, FileEvent(i, 2))}
  }

  /** The last two of the first steps. */
  lemma TellingLeads(i: nat)
    requires i < 2
    ensures Reaches(Mesh(2, Peer(FULL), multiset{}, multiset{}, Waiting(1 - i) + Waiting(i)), 2,
                    [Inject(Pending(0, FileEvent(i, 2))), DeliverAnnounce(Told(i))], After(i))
  {
    hide Leads, Reaches, Peer, AuthorAfter, PublishedAfter, FileEvent, Told, After, Mesh;
    AfterIsAtEnd(i);
    AfterIs(i);
    var other := Waiting(1 - i);
    var announced := Mesh(2, Peer(FULL), multiset{Told(i)}, multiset{}, other);
    if i == 0 {
      DropLeads(other);
    } else {
      PushLeads(other);
    }
    var none, one: seq<Step> := [], [DeliverAnnounce(Told(i))];
    Prepend(announced, DeliverAnnounce(Told(i)), After(i), none, After(i));
    assert one + none == one;
    TellLeads(i, other);
    Prepend(Mesh(2, Peer(FULL), multiset{}, multiset{}, Waiting(1 - i) + Waiting(i)),
            Inject(Pending(0, FileEvent(i, 2))), announced, one, After(i));
    assert [Inject(Pending(0, FileEvent(i, 2)))] + one
        == [Inject(Pending(0, FileEvent(i, 2))), DeliverAnnounce(Told(i))];
  }

  lemma FirstStepsLead(i: nat)
    requires i < 2
    ensures Reaches(Start(), 0, FirstSteps(i), After(i))
  {
    hide Leads, Reaches, Peer, AuthorAfter, PublishedAfter, FileEvent, CopyPasses, FileUpdate, Told, At, Start, After,
      Mesh, Waiting, FileCopyStep;
    StartIs();
    TellingLeads(i);
    WaitingAre(i);
    var steps := [Inject(Pending(0, FileEvent(i, 2))), DeliverAnnounce(Told(i))];
    CopyLeads(1, Waiting(0));
    AuthorIs(1, Peer(FULL), multiset{}, multiset{}, Waiting(0));
    PrependCopy(Mesh(1, Peer(FULL), multiset{}, multiset{}, Waiting(0)), 1,
                Mesh(2, Peer(FULL), multiset{}, multiset{}, Waiting(0) + Waiting(1)), steps, After(i));
    steps := [FileCopyStep(1)] + steps;
    CopyLeads(0, multiset{});
    AuthorIs(0, Peer(FULL), multiset{}, multiset{}, multiset{});
    PrependCopy(Start(), 0, Mesh(1, Peer(FULL), multiset{}, multiset{}, Waiting(0)), steps, After(i));
    assert FirstSteps(i) == [FileCopyStep(0)] + steps;
  }

  lemma WaitingAre(i: nat)
    requires i < 2
    ensures Waiting(0) == multiset{Pending(0, FileEvent(0, 2))} && Waiting(1) == multiset{Pending(0, FileEvent(1, 2))}
    ensures Waiting(1 - i) + Waiting(i) == Waiting(0) + Waiting(1)
    ensures multiset{} + multiset{Pending(0, FileEvent(0, 2))} == Waiting(0)
  {
  }

  lemma AfterIs(i: nat)
    requires i < 2
    ensures After(i) == if i == 0 then Mesh(2, Peer(FULL), multiset{}, multiset{}, Waiting(1))
      else Mesh(2, Peer(PUSHED), multiset{}, multiset{Ticket(1, Told(1).ev)}, Waiting(0))
  {
  }

  // ---------------------------------------------------------------- what they decide

  lemma FirstFileIsGone()
    ensures IsGone(After(0), FileEvent(0, 2).payload.id)
  {
  }

  lemma NothingIsServed(steps: seq<Step>, s: State)
    requires CanRun(PAIR, s, steps) && forall step :: step in steps ==> !step.ServeRequest?
    ensures IsNeverAnswered(Files().sr, s, 1, 0, steps)
    decreases |steps|
  {
    FilesAre();
    hide Apply, Enabled, Files;
    if steps != [] {
      assert steps[0] in steps && forall step :: step in steps[1..] ==> step in steps;
      NothingIsServed(steps[1..], Apply(PAIR, s, steps[0]));
    }
  }

  /** If the announce of the first file comes first, it is taken for an old one, and node 1 never writes the files. */
  lemma FilesAreLostIfFirstComesFirst(steps: seq<Step>)
    requires CanRun(PAIR, After(0), steps) && CopiesInOrder(Files().sr, After(0), 2, steps)
    ensures CanRun(PAIR, Start(), FirstSteps(0) + steps)
    ensures CopiesInOrder(Files().sr, Start(), 0, FirstSteps(0) + steps)
    ensures At(Gossip.Run(PAIR, Start(), FirstSteps(0) + steps), 1).clip == []
  {
    hide CanRun, CopiesInOrder, Files, Start, After, FirstSteps, FileEvent, ValidCopy, IsGone, IsNeverAnswered, At,
      CanTake, Tallies, FileCopy.IsClosedAt, Series.IsNotLastOf;
    FirstStepsLead(0);
    FirstFileIsGone();
    FilesAre();
    FilesAreCopied();
    StartClip();
    FirstFileFits();
    NoneServes(0);
    RunsJoin(Files().sr, Start(), 0, 1, NewTallies(Files().sr), FirstSteps(0), steps);
    NothingIsServed(FirstSteps(0), Start());
    GoneIsNeverAnswered(Files().sr, After(0), 1, 0, steps);
    NeverAnsweredJoin(Files().sr, Start(), 1, 0, FirstSteps(0), steps);
    UnansweredFileIsLost(Files(), FirstSteps(0) + steps, 1, 0);
  }

  lemma NoneServes(i: nat)
    requires i < 2
    ensures forall step :: step in FirstSteps(i) ==> !step.ServeRequest? && !step.ExpireBatch?
  {
  }

  lemma StartClip()
    ensures At(Start(), 1).clip == [] && Files().IsClosedAt(1)
  {
  }

  lemma FirstFileFits()
    ensures FileEvent(0, 2).payload.length <= PAIR.Max(1) && CanTake(Files(), 1) && 1 != Files().sr.author
  {
    PeerOfPair();
    FilesAreCopied();
  }

  /** After the other four steps node 1 asks for both files. */
  lemma PushedIsClean()
    ensures IsClean(Files().sr, At(After(1), 1)) && Heard(Files().sr, At(After(1), 1), 1)
    ensures !Heard(Files().sr, At(After(1), 1), 0)
  {
    FilesAre();
    AfterPeer();
    assert 1 !in PUSHED.data && 2 in PUSHED.data;
    hide Files, After;
    var sr := Files().sr;
    assert sr.Announcement(1) == Told(1).ev;
    forall i | 0 <= i < |sr.evs| && sr.evs[i].payload.hash in PUSHED.data ensures i == 1 {
      assert i == 0 || i == 1;
    }
    hide At;
  }

  lemma AfterPeer()
    ensures At(After(1), 1) == Peer(PUSHED) && Peer(PUSHED).chan.announced == PUSHED
  {
  }

  lemma PushedTraffic()
    ensures var sr, s := Files().sr, After(1);
      && s.tickets[sr.TicketAt(1, 1)] == 1 && s.tickets[sr.TicketAt(1, 0)] == 0
      && Pending(0, FileEvent(0, 2)) in s.pending
  {
    FilesAre();
  }

  lemma PushedAsks(ts: seq<Tally>)
    requires PeerFollows(Files().sr, After(1), 2, 1, ts)
    ensures WantsFollows(Files().sr, After(1), 2, 1, ts)
  {
    FilesAre();
    PushedIsClean();
    PushedTraffic();
    hide Files, After, At, Heard, IsClean, FilterFollows, LastFollows, IsWelcome;
    var sr, s := Files().sr, After(1);
    assert ItemFollows(sr, s, 2, 1, 0, ts[0]) && ItemFollows(sr, s, 2, 1, 1, ts[1]);
    assert IsTold(sr, s, 1, 0) && IsTold(sr, s, 1, 1);
    forall i | 0 <= i < |sr.evs| ensures s.tickets[sr.TicketAt(1, i)] + ts[i].asked == Num(Heard(sr, At(s, 1), i)) {
      assert i == 0 || i == 1;
    }
  }

  /** If the announce of the second file comes first, it pushes the old content out, and node 1 writes both files, as
      long as neither is gone when it is requested. */
  lemma FilesArriveIfSecondComesFirst(steps: seq<Step>)
    requires CanRun(PAIR, After(1), steps) && CopiesInOrder(Files().sr, After(1), 2, steps)
    requires KeepsBatch(Files(), steps)
    requires Quiescent(Gossip.Run(PAIR, After(1), steps))
    ensures CanRun(PAIR, Start(), FirstSteps(1) + steps)
    ensures CopiesInOrder(Files().sr, Start(), 0, FirstSteps(1) + steps)
    ensures At(Gossip.Run(PAIR, Start(), FirstSteps(1) + steps), 1).clip
         == if NoneIsServedGone(Files(), 1, FirstSteps(1) + steps) then [Files().WriteAt(1)] else []
  {
    hide NoneIsServedGone, CanRun, CopiesInOrder, Files, Start, After, FirstSteps, FileEvent, IsClean, At, PeerFollows,
      WantsFollows, SourceFollows, Tallies, FileCopy.WriteAt, Quiescent, Heard, ValidSeries, IsCopy, CanTake,
      FileCopy.IsClosedAt;
    FirstStepsLead(1);
    FilesAre();
    FilesAreCopied();
    StartClip();
    FirstFileFits();
    NoneServes(1);
    var fc := Files();
    var sr, first := fc.sr, FirstSteps(1);
    var zero := NewTallies(sr);
    RunsJoin(sr, Start(), 0, 1, zero, first, steps);
    SourceStarts(sr);
    PeerStarts(sr, 1);
    RunSource(sr, Start(), 0, first);
    RunPeer(sr, Start(), 0, 1, zero, first);
    PushedAsks(Tallies(sr, Start(), 1, zero, first));
    RunWants(sr, After(1), 2, 1, Tallies(sr, Start(), 1, zero, first), steps);
    AskedAtRest(first + steps);
    WrittenExactlyWhenAllAsked(fc, first + steps, 1);
  }

  lemma AskedAtRest(steps: seq<Step>)
    requires CanRun(PAIR, Start(), steps) && Quiescent(Gossip.Run(PAIR, Start(), steps))
    requires WantsFollows(Files().sr, Gossip.Run(PAIR, Start(), steps), 2, 1, Ledger(Files().sr, 1, steps))
    ensures HasAskedForAll(Files(), 1, steps)
  {
    FilesAre();
    hide Files, Start, At, Heard, IsClean, CanRun, Ledger;
    var sr, end := Files().sr, Gossip.Run(PAIR, Start(), steps);
    forall i | 0 <= i < |sr.evs| ensures Ledger(sr, 1, steps)[i].asked == 1 {
      assert IsTold(sr, end, 1, i);
    }
  }
}
