/** internal/channel/channel.go: the last message, the announce filter and the served files of one node. */
module Channel {
  import opened Wrappers
  import opened Machine
  import opened Domain
  import opened History

  /** The value of a channel. `announced` is its `fileHistory`, keyed by content hash. */
  datatype Chan = Chan(
    last: EventMessage,
    announced: Fifo<Uint64, EventAnnounce>,
    served: Fifo<MessageID, EventMessage>)

  const NEW_CHAN := Chan(ZERO_EVENT, Fifo([], map[]), Fifo([], map[]))

  predicate Accepts(c: Chan, msg: EventMessage) {
    c.last.payload.Zero() || !c.last.payload.Duplicate(msg.payload)
  }

  /** The effect of `Channel.Send`. */
  function Sent(c: Chan, msg: EventMessage): Chan {
    if !Accepts(c, msg) then c
    else if IsPath(msg.payload.mime) then
      c.(last := msg, served := Added(c.served, HISTORY_SIZE, msg.payload.id, msg))
    else c.(last := msg)
  }

  /** The effect of `Channel.Announce`, and whether the announce is passed on. */
  function Announced(c: Chan, ann: EventAnnounce): Chan {
    c.(announced := Added(c.announced, HISTORY_SIZE, ann.payload.hash, ann))
  }

  predicate IsNews(c: Chan, ann: EventAnnounce) {
    ann.payload.hash !in c.announced.data
  }

  /** The answer of `Channel.Get`. */
  function Lookup(c: Chan, id: MessageID): Option<EventMessage> {
    if c.last.payload.id == id then Some(c.last)
    else if id in c.served.data then Some(c.served.data[id])
    else None
  }

  class MessageChannel {
    var lastMsg: EventMessage
    const fileHistory: FifoHistory<Uint64, EventAnnounce>
    const servedFiles: FifoHistory<MessageID, EventMessage>

    ghost function Repr(): set<object> {
      {this, fileHistory, servedFiles}
    }

    ghost predicate Valid()
      reads Repr()
    {
      && fileHistory.Valid() && fileHistory.limit == HISTORY_SIZE
      && servedFiles.Valid() && servedFiles.limit == HISTORY_SIZE
    }

    ghost function Value(): Chan
      reads Repr()
    {
      Chan(lastMsg, fileHistory.Value(), servedFiles.Value())
    }

    constructor ()
      ensures Valid() && fresh(Repr()) && Value() == NEW_CHAN
    {
      lastMsg := ZERO_EVENT;
      fileHistory := new FifoHistory(HISTORY_SIZE);
      servedFiles := new FifoHistory(HISTORY_SIZE);
    }

    method Get(id: MessageID) returns (found: Option<EventMessage>)
      requires Valid()
      ensures found == Lookup(Value(), id)
    {
      if lastMsg.payload.id == id {
        return Some(lastMsg);
      }
      found := servedFiles.Get(id);
    }

    /** `passed` says that the message goes on to the monitor. */
    method Send(msg: EventMessage) returns (passed: bool)
      requires Valid()
      modifies Repr()
      ensures Valid()
      ensures passed == Accepts(old(Value()), msg)
      ensures Value() == Sent(old(Value()), msg)
      ensures lastMsg == if passed then msg else old(lastMsg)
    {
      if !lastMsg.payload.Zero() && lastMsg.payload.Duplicate(msg.payload) {
        return false;
      }
      lastMsg := msg;
      if IsPath(msg.payload.mime) {
        var _ := servedFiles.Add(msg.payload.id, msg);
      }
      return true;
    }

    /** `passed` says that the announce goes on to the monitor. */
    method Announce(ann: EventAnnounce) returns (passed: bool)
      requires Valid()
      modifies fileHistory
      ensures Valid()
      ensures passed == IsNews(old(Value()), ann)
      ensures Value() == Announced(old(Value()), ann)
    {
      passed := fileHistory.Add(ann.payload.hash, ann);
    }
  }

  datatype Call = SendCall(msg: EventMessage) | AnnounceCall(ann: EventAnnounce)

  /** What a run of calls leaves behind: the channel and the abstract log it stands for. */
  datatype Trace = Trace(
    chan: Chan,
    accepted: seq<EventMessage>,
    files: seq<(MessageID, EventMessage)>,
    announces: seq<(Uint64, EventAnnounce)>)

  function Step(t: Trace, call: Call): Trace {
    match call
    case SendCall(msg) =>
      if !Accepts(t.chan, msg) then t else
      t.(chan := Sent(t.chan, msg),
         accepted := t.accepted + [msg],
         files := if IsPath(msg.payload.mime) && msg.payload.id !in t.chan.served.data
                  then t.files + [(msg.payload.id, msg)] else t.files)
    case AnnounceCall(ann) =>
      t.(chan := Announced(t.chan, ann),
         announces := if IsNews(t.chan, ann) then t.announces + [(ann.payload.hash, ann)] else t.announces)
  }

  function Run(calls: seq<Call>): Trace {
    if calls == [] then Trace(NEW_CHAN, [], [], [])
    else Step(Run(calls[..|calls| - 1]), calls[|calls| - 1])
  }

  ghost predicate NoRepeats(accepted: seq<EventMessage>) {
    forall i :: 0 < i < |accepted| ==>
      accepted[i - 1].payload.Zero() || !accepted[i - 1].payload.Duplicate(accepted[i].payload)
  }

  ghost predicate RefinesAccepted(t: Trace) {
    && t.chan.last == (if t.accepted == [] then ZERO_EVENT else t.accepted[|t.accepted| - 1])
    && NoRepeats(t.accepted)
  }

  ghost predicate RefinesFiles(t: Trace) {
    && IsRecent(t.chan.served, HISTORY_SIZE, t.files)
    && (forall f :: f in t.files ==> f.1 in t.accepted && IsPath(f.1.payload.mime) && f.0 == f.1.payload.id)
  }

  ghost predicate RefinesAnnounces(t: Trace) {
    && IsRecent(t.chan.announced, HISTORY_SIZE, t.announces)
    && (forall a :: a in t.announces ==> a.0 == a.1.payload.hash)
  }

  /** The channel is a window on its log: the last accepted message and the last five inserts of either history. */
  ghost predicate RefinesLog(t: Trace) {
    RefinesAccepted(t) && RefinesFiles(t) && RefinesAnnounces(t)
  }

  lemma SendKeepsAccepted(t: Trace, msg: EventMessage)
    requires RefinesAccepted(t)
    ensures RefinesAccepted(Step(t, SendCall(msg)))
  {
    hide Added;
  }

  lemma SendKeepsFiles(t: Trace, msg: EventMessage)
    requires RefinesFiles(t)
    ensures RefinesFiles(Step(t, SendCall(msg)))
  {
    hide IsRecent, Insert;
    if IsPath(msg.payload.mime) && msg.payload.id !in t.chan.served.data {
      InsertIsRecent(t.chan.served, HISTORY_SIZE, t.files, msg.payload.id, msg);
    }
  }

  lemma SendKeepsAnnounces(t: Trace, msg: EventMessage)
    requires RefinesAnnounces(t)
    ensures RefinesAnnounces(Step(t, SendCall(msg)))
  {
    hide IsRecent, Added;
  }

  lemma AnnounceKeepsRest(t: Trace, ann: EventAnnounce)
    requires RefinesAccepted(t) && RefinesFiles(t)
    ensures RefinesAccepted(Step(t, AnnounceCall(ann))) && RefinesFiles(Step(t, AnnounceCall(ann)))
  {
    hide IsRecent, Added, NoRepeats;
  }

  lemma AnnounceKeepsAnnounces(t: Trace, ann: EventAnnounce)
    requires RefinesAnnounces(t)
    ensures RefinesAnnounces(Step(t, AnnounceCall(ann)))
  {
    hide IsRecent, Insert;
    if IsNews(t.chan, ann) {
      InsertIsRecent(t.chan.announced, HISTORY_SIZE, t.announces, ann.payload.hash, ann);
    }
  }

  lemma StepKeepsLog(t: Trace, call: Call)
    requires RefinesLog(t)
    ensures RefinesLog(Step(t, call))
  {
    hide RefinesAccepted, RefinesFiles, RefinesAnnounces, Step;
    match call
    case SendCall(msg) =>
      SendKeepsAccepted(t, msg);
      SendKeepsFiles(t, msg);
      SendKeepsAnnounces(t, msg);
    case AnnounceCall(ann) =>
      AnnounceKeepsRest(t, ann);
      AnnounceKeepsAnnounces(t, ann);
  }

  lemma {:induction false} ChannelRefinesLog(calls: seq<Call>)
    ensures RefinesLog(Run(calls))
  {
    if calls != [] {
      ChannelRefinesLog(calls[..|calls| - 1]);
      StepKeepsLog(Run(calls[..|calls| - 1]), calls[|calls| - 1]);
    }
  }

  /** Over every run a message passes if and only if nothing has, or what passed last is no message or differs from it
      in id, and in kind or content, where no hash is no content. */
  lemma PassesExactlyWhenNotLast(calls: seq<Call>, msg: EventMessage)
    ensures
      var accepted := Run(calls).accepted;
      Accepts(Run(calls).chan, msg)
      <==> (accepted == [] || (var last, m := accepted[|accepted| - 1].payload, msg.payload;
                               || last.id == 0 || last.hash == 0 || last.length == 0
                               || (last.id != m.id && (last.mime != m.mime || last.hash != m.hash))))
  {
    ChannelRefinesLog(calls);
    hide Run, RefinesFiles, RefinesAnnounces, NoRepeats;
  }

  /** `Get` finds the last message or one of the last five file messages, by exactly that id, and nothing else. */
  lemma LookupFindsLastOrRecentFile(calls: seq<Call>, id: MessageID)
    ensures
      var t := Run(calls);
      var found := Lookup(t.chan, id);
      && (t.chan.last.payload.id == id ==> found == Some(t.chan.last))
      && (t.chan.last.payload.id != id && found.Some? ==> (id, found.value) in Recent(t.files, HISTORY_SIZE))
      && (found.None? <==> t.chan.last.payload.id != id && forall f :: f in Recent(t.files, HISTORY_SIZE) ==> f.0 != id)
  {
    ChannelRefinesLog(calls);
    var t := Run(calls);
    var recent := Recent(t.files, HISTORY_SIZE);
    forall f | f in recent
      ensures f.0 in t.chan.served.data && f.0 == f.1.payload.id && t.chan.served.data[f.0] == f.1
    {
      var i :| 0 <= i < |recent| && recent[i] == f;
      assert f in t.files;
    }
    if id in t.chan.served.data {
      var i :| 0 <= i < |t.chan.served.order| && t.chan.served.order[i] == id;
      assert recent[i] in recent;
    }
  }

  /** An announce passes exactly if its content hash is none of the last five that passed: a sixth content makes
      the filter forget the first. */
  lemma PassesExactlyWhenNotRecent(calls: seq<Call>, ann: EventAnnounce)
    ensures IsNews(Run(calls).chan, ann)
       <==> forall a :: a in Recent(Run(calls).announces, HISTORY_SIZE) ==> a.0 != ann.payload.hash
  {
    ChannelRefinesLog(calls);
    var t := Run(calls);
    var recent := Recent(t.announces, HISTORY_SIZE);
    if !IsNews(t.chan, ann) {
      var i :| 0 <= i < |t.chan.announced.order| && t.chan.announced.order[i] == ann.payload.hash;
      assert recent[i] in recent;
    }
  }

  /** A content hash passes the announce filter again only after five other hashes have passed. */
  lemma HashPassesAgainOnlyAfterFiveOthers(calls: seq<Call>, i: nat, j: nat)
    requires i < j < |Run(calls).announces|
    requires Run(calls).announces[i].0 == Run(calls).announces[j].0
    ensures
      var log := Run(calls).announces;
      && i + HISTORY_SIZE < j
      && (forall p :: j - HISTORY_SIZE <= p < j ==> log[p].0 != log[j].0)
      && (forall p, q :: j - HISTORY_SIZE <= p < q < j ==> log[p].0 != log[q].0)
  {
    var offers := AnnouncesOf(calls);
    AnnouncesReplay(calls);
    ReinsertedOnlyAfterLimitOthers(HISTORY_SIZE, offers, i, j);
  }

  ghost function AnnouncesOf(calls: seq<Call>): seq<(Uint64, EventAnnounce)> {
    if calls == [] then [] else
    var rest := AnnouncesOf(calls[..|calls| - 1]);
    match calls[|calls| - 1]
    case SendCall(_) => rest
    case AnnounceCall(ann) => rest + [(ann.payload.hash, ann)]
  }

  lemma {:induction false} AnnouncesReplay(calls: seq<Call>)
    ensures (Run(calls).chan.announced, Run(calls).announces) == Replay(HISTORY_SIZE, AnnouncesOf(calls))
  {
    if calls != [] {
      AnnouncesReplay(calls[..|calls| - 1]);
      match calls[|calls| - 1]
      case SendCall(_) =>
      case AnnounceCall(ann) =>
        var offers := AnnouncesOf(calls);
        assert offers[..|offers| - 1] == AnnouncesOf(calls[..|calls| - 1]);
    }
  }
}
