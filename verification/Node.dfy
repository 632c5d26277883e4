/** One node: the handlers of internal/node/node.go and internal/peer/peer.go. */
module Node {
  import opened Wrappers
  import opened Machine
  import opened Domain
  import opened Channel
  import opened Batch
  import opened History

  /** A clipboard change reported by the watcher. */
  datatype Update = Update(
    data: Bytes, size: Uint64, mime: Int32, hash: Uint64, batchID: Uint64, batchTotal: Uint32)

  /** A write to the local clipboard: one whole message, or the join of a batch. */
  datatype ClipWrite = Whole(msg: Message) | Batched(batchID: MessageID, mime: Int32, data: Bytes)

  datatype NodeState = NodeState(chan: Chan, current: Message, batches: Batches, clip: seq<ClipWrite>)

  const NEW_NODE := NodeState(NEW_CHAN, ZERO_MESSAGE, map[], [])

  const SLASH: Byte := 47
  const DOT: Byte := 46

  function TrimSlashes(path: Bytes): Bytes {
    if path != [] && path[|path| - 1] == SLASH then TrimSlashes(path[..|path| - 1]) else path
  }

  function LastElement(path: Bytes): Bytes {
    if path == [] || path[|path| - 1] == SLASH then []
    else LastElement(path[..|path| - 1]) + [path[|path| - 1]]
  }

  /** `filepath.Base` where the separator is a slash. */
  function Base(path: Bytes): Bytes {
    if path == [] then [DOT]
    else if TrimSlashes(path) == [] then [SLASH]
    else LastElement(TrimSlashes(path))
  }

  ghost predicate AllSlashes(s: Bytes) {
    forall b <- s :: b == SLASH
  }

  /** The last element of a path, whatever slashes follow it. */
  lemma BaseIsLastElement(dir: Bytes, name: Bytes, slashes: Bytes)
    requires name != [] && SLASH !in name && AllSlashes(slashes) && (dir == [] || dir[|dir| - 1] == SLASH)
    ensures Base(dir + name + slashes) == name
  {
    assert (dir + name)[|dir| + |name| - 1] == name[|name| - 1] && name[|name| - 1] in name;
    TrimSlashesCuts(dir + name, slashes);
    LastElementIs(dir, name);
  }

  lemma {:induction false} TrimSlashesCuts(path: Bytes, slashes: Bytes)
    requires AllSlashes(slashes) && (path == [] || path[|path| - 1] != SLASH)
    ensures TrimSlashes(path + slashes) == path
    decreases |slashes|
  {
    if slashes == [] {
      assert path + slashes == path;
    } else {
      var n := |slashes| - 1;
      assert (path + slashes)[..|path| + n] == path + slashes[..n] && slashes[n] in slashes;
      assert forall b :: b in slashes[..n] ==> b in slashes;
      TrimSlashesCuts(path, slashes[..n]);
    }
  }

  lemma {:induction false} LastElementIs(dir: Bytes, name: Bytes)
    requires SLASH !in name && (dir == [] || dir[|dir| - 1] == SLASH)
    ensures LastElement(dir + name) == name
    decreases |name|
  {
    if name == [] {
      assert dir + name == dir;
    } else {
      var n := |name| - 1;
      assert (dir + name)[..|dir| + n] == dir + name[..n] && name == name[..n] + [name[n]];
      LastElementIs(dir, name[..n]);
    }
  }

  function MessageFromUpdate(u: Update, id: MessageID): Message
    requires |u.data| < TWO64
  {
    if IsPath(u.mime) then
      Message(id, u.data, u.mime, u.hash, u.size, Base(u.data), ToInt64(u.batchID), u.batchTotal)
    else
      Message(id, u.data, u.mime, u.hash, |u.data|, [], ToInt64(u.batchID), u.batchTotal)
  }

  /** A file is named by the last element of its path, anything else has no name. The size of a file is what the watcher
      found, that of anything else the number of its bytes. */
  lemma FileIsNamedByItsPath(u: Update, id: MessageID, dir: Bytes, name: Bytes)
    requires name != [] && SLASH !in name && u.data == dir + [47] + name && |u.data| < TWO64
    ensures MessageFromUpdate(u, id).name == if u.mime == MIME_PATH then name else []
    ensures MessageFromUpdate(u, id).length == if u.mime == MIME_PATH then u.size else |dir| + 1 + |name|
    ensures
      var m := MessageFromUpdate(u, id);
      && m.id == id && m.data == u.data && m.mime == u.mime && m.hash == u.hash && m.batchTotal == u.batchTotal
      && (u.batchID < TWO63 ==> m.batchID == u.batchID)
  {
    BaseIsLastElement(dir + [SLASH], name, []);
    assert dir + [SLASH] + name + [] == u.data;
  }

  /** The watcher loop passes a copy on when it is a message at all and not the previous one again. */
  predicate IsNewCopy(st: NodeState, msg: Message) {
    !msg.Zero() && !(msg.Duplicate(st.current) && !st.current.Zero())
  }

  function Copied(st: NodeState, ev: EventMessage): NodeState {
    if IsNewCopy(st, ev.payload) then st.(current := ev.payload, chan := Sent(st.chan, ev)) else st
  }

  predicate CopyPasses(st: NodeState, ev: EventMessage) {
    IsNewCopy(st, ev.payload) && Accepts(st.chan, ev)
  }

  function CopiedAll(st: NodeState, evs: seq<EventMessage>): NodeState {
    if evs == [] then st else Copied(CopiedAll(st, evs[..|evs| - 1]), evs[|evs| - 1])
  }

  function PassedOf(st: NodeState, evs: seq<EventMessage>): seq<EventMessage> {
    if evs == [] then [] else
    var last := evs[|evs| - 1];
    PassedOf(st, evs[..|evs| - 1]) + if CopyPasses(CopiedAll(st, evs[..|evs| - 1]), last) then [last] else []
  }

  /** A part that will never arrive, recorded so that its batch can still complete. */
  function Refused(b: Batches, msg: Message): Batches {
    if msg.batchID != 0 then Collected(b, msg.(data := [])) else b
  }

  function NackOf(ann: Announce): Message {
    Message(ann.id, [], MIME_TEXT, 0, 0, [], ann.batchID, ann.batchTotal)
  }

  /** Whether `handleAnnounce` asks the author for the announced message. */
  predicate Requests(st: NodeState, peers: set<NodeID>, maxSize: Uint64, ann: EventAnnounce) {
    && ann.from in peers
    && ann.payload.length <= maxSize
    && !st.chan.last.payload.DuplicateByAnnounce(ann.payload)
  }

  function AnnounceHandled(st: NodeState, peers: set<NodeID>, maxSize: Uint64, ann: EventAnnounce): NodeState {
    if ann.from in peers && maxSize < ann.payload.length
    then st.(batches := Refused(st.batches, NackOf(ann.payload)))
    else st
  }

  /** The data of an incoming message: the raw bytes of an inline one, the path of a stored file. */
  function Intake(maxSize: Uint64, msg: Message, raw: Bytes, stored: Option<Bytes>): Option<Bytes> {
    if maxSize < msg.length then None
    else if IsPath(msg.mime) then stored
    else if |raw| < msg.length then None
    else Some(raw[..msg.length])
  }

  function WithData(ev: EventMessage, data: Bytes): EventMessage {
    ev.(payload := ev.payload.(data := data))
  }

  function MessageHandled(st: NodeState, maxSize: Uint64, ev: EventMessage, raw: Bytes,
                          stored: Option<Bytes>): NodeState {
    match Intake(maxSize, ev.payload, raw, stored)
    case None => st.(batches := Refused(st.batches, ev.payload))
    case Some(data) => st.(chan := Sent(st.chan, WithData(ev, data)))
  }

  function MessagePasses(st: NodeState, maxSize: Uint64, ev: EventMessage, raw: Bytes,
                         stored: Option<Bytes>): Option<EventMessage> {
    match Intake(maxSize, ev.payload, raw, stored)
    case None => None
    case Some(data) => if Accepts(st.chan, WithData(ev, data)) then Some(WithData(ev, data)) else None
  }

  /** The reply to a request: the message and its raw bytes. A file may have gone from the disk. */
  function Reply(c: Chan, id: MessageID, file: Option<Bytes>): Option<(EventMessage, Bytes)> {
    match Lookup(c, id)
    case None => None
    case Some(ev) =>
      if ev.payload.id != id then None
      else if !IsPath(ev.payload.mime) then Some((ev, ev.payload.data))
      else if file.Some? then Some((ev, file.value))
      else None
  }

  /** Over every run of a channel a request is answered if and only if it is for the last message or one of the last
      five file messages, and that is inline or its file could be opened. The answer carries the message's own data, or
      the file's. */
  lemma AnsweredExactlyWhenThere(calls: seq<Call>, id: MessageID, file: Option<Bytes>)
    ensures
      var t := Channel.Run(calls);
      var reply := Reply(t.chan, id, file);
      && (reply.Some? <==> exists ev ::
            && (ev == t.chan.last || (id, ev) in Recent(t.files, HISTORY_SIZE)) && ev.payload.id == id
            && (ev.payload.mime != MIME_PATH || file.Some?))
      && (reply.Some? ==>
            && reply.value.0.payload.id == id
            && (if reply.value.0.payload.mime == MIME_PATH then Some(reply.value.1) == file
                else reply.value.1 == reply.value.0.payload.data))
  {
    LookupFindsLastOrRecentFile(calls, id);
    FilesAreUnderTheirIds(calls, id);
    hide Channel.Run, Lookup, Recent;
  }

  lemma FilesAreUnderTheirIds(calls: seq<Call>, id: MessageID)
    ensures
      var t := Channel.Run(calls);
      forall ev :: (id, ev) in Recent(t.files, HISTORY_SIZE) ==>
        && ev.payload.id == id && IsPath(ev.payload.mime)
        && (t.chan.last.payload.id != id ==> Lookup(t.chan, id) == Some(ev))
  {
    ChannelRefinesLog(calls);
    var t := Channel.Run(calls);
    var recent := Recent(t.files, HISTORY_SIZE);
    forall ev: EventMessage | (id, ev) in recent
      ensures ev.payload.id == id && IsPath(ev.payload.mime) && id in t.chan.served.data && t.chan.served.data[id] == ev
    {
      var i :| 0 <= i < |recent| && recent[i] == (id, ev);
      assert recent[i] in t.files;
    }
  }

  predicate IsBatched(msg: Message) {
    msg.batchID != 0 && 1 < msg.batchTotal
  }

  /** The monitor's treatment of a message that came through the channel of node `me`. */
  ghost function Injected(st: NodeState, me: NodeID, ev: EventMessage): NodeState {
    if ev.from == me then st
    else if !IsBatched(ev.payload) then st.(clip := st.clip + [Whole(ev.payload)])
    else
      var ready := Ready(st.batches, ev.payload);
      st.(batches := Collected(st.batches, ev.payload),
          clip := st.clip + if ready.Some? then [Batched(ev.payload.batchID, ev.payload.mime, ready.value)] else [])
  }

  function AnnounceOf(ev: EventMessage): EventAnnounce {
    Event(ev.from, ev.created, ev.payload.ToAnnounce())
  }

  class ClipboardNode {
    const me: NodeID
    const peers: set<NodeID>
    const maxSize: Uint64
    const channel: MessageChannel
    const collector: BatchCollector
    var current: Message
    var clip: seq<ClipWrite>

    ghost function Repr(): set<object> {
      {this, collector} + channel.Repr()
    }

    ghost predicate Valid()
      reads Repr()
    {
      channel.Valid() && collector.Valid()
    }

    ghost function Value(): NodeState
      reads Repr()
    {
      NodeState(channel.Value(), current, collector.batches, clip)
    }

    constructor (me: NodeID, peers: set<NodeID>, maxSize: Uint64)
      ensures Valid() && fresh(Repr()) && Value() == NEW_NODE
    {
      this.me, this.peers, this.maxSize := me, peers, maxSize;
      channel := new MessageChannel();
      collector := new BatchCollector();
      current, clip := ZERO_MESSAGE, [];
    }

    /** The watcher loop of `monitor`, for the events made from a run of updates. */
    method Watch(events: seq<EventMessage>) returns (passed: seq<EventMessage>)
      requires Valid()
      modifies Repr()
      ensures Valid()
      ensures Value() == CopiedAll(old(Value()), events)
      ensures passed == PassedOf(old(Value()), events)
    {
      passed := [];
      for i := 0 to |events|
        invariant Valid()
        invariant Value() == CopiedAll(old(Value()), events[..i])
        invariant passed == PassedOf(old(Value()), events[..i])
      {
        var ev := events[i];
        assert events[..i + 1][..i] == events[..i];
        if ev.payload.Zero() {
          continue;
        }
        if ev.payload.Duplicate(current) && !current.Zero() {
          continue;
        }
        current := ev.payload;
        var ok := channel.Send(ev);
        if ok {
          passed := passed + [ev];
        }
      }
      assert events[..|events|] == events;
    }

    method HandleAnnounce(ann: EventAnnounce) returns (request: Option<MessageID>)
      requires Valid()
      modifies collector
      ensures Valid()
      ensures Value() == AnnounceHandled(old(Value()), peers, maxSize, ann)
      ensures request == if Requests(old(Value()), peers, maxSize, ann) then Some(ann.payload.id) else None
      ensures request.Some? <==>
        var last := channel.lastMsg.payload;
        && ann.from in peers && ann.payload.length <= maxSize
        && last.id != ann.payload.id && (last.hash == 0 || last.hash != ann.payload.hash)
      ensures ann.from !in peers || ann.payload.length <= maxSize || ann.payload.batchID == 0 ==>
        collector.batches == old(collector.batches)
    {
      if ann.from !in peers {
        return None;
      }
      if ann.payload.length > maxSize {
        if ann.payload.batchID != 0 {
          var _ := collector.Add(NackOf(ann.payload));
        }
        return None;
      }
      if channel.lastMsg.payload.DuplicateByAnnounce(ann.payload) {
        return None;
      }
      return Some(ann.payload.id);
    }

    method SendNack(msg: Message)
      requires Valid()
      modifies collector
      ensures Valid()
      ensures Value() == old(Value()).(batches := Refused(old(Value()).batches, msg))
      ensures msg.batchID == 0 ==> Value() == old(Value())
    {
      if msg.batchID != 0 {
        var _ := collector.Add(msg.(data := []));
      }
    }

    /** `raw` is the rest of the stream, `stored` the outcome of the file store. */
    method HandleMessage(ev: EventMessage, raw: Bytes, stored: Option<Bytes>) returns (passed: Option<EventMessage>)
      requires Valid()
      modifies Repr()
      ensures Valid()
      ensures Value() == MessageHandled(old(Value()), maxSize, ev, raw, stored)
      ensures passed == MessagePasses(old(Value()), maxSize, ev, raw, stored)
      ensures passed.Some? ==>
        && ev.payload.length <= maxSize && channel.lastMsg == passed.value
        && passed.value == ev.(payload := ev.payload.(data := passed.value.payload.data))
        && (if ev.payload.mime == MIME_PATH then Some(passed.value.payload.data) == stored
            else |passed.value.payload.data| == ev.payload.length && passed.value.payload.data <= raw)
      ensures
        var fails := maxSize < ev.payload.length
          || (if ev.payload.mime == MIME_PATH then stored.None? else |raw| < ev.payload.length);
        collector.batches == if fails && ev.payload.batchID != 0
                             then Collected(old(collector.batches), ev.payload.(data := [])) else old(collector.batches)
    {
      if ev.payload.length > maxSize {
        SendNack(ev.payload);
        return None;
      }
      var data: Bytes;
      if IsPath(ev.payload.mime) {
        if stored.None? {
          SendNack(ev.payload);
          return None;
        }
        data := stored.value;
      } else {
        if |raw| < ev.payload.length {
          SendNack(ev.payload);
          return None;
        }
        data := raw[..ev.payload.length];
      }
      var ok := channel.Send(WithData(ev, data));
      passed := if ok then Some(WithData(ev, data)) else None;
    }

    method HandleRequest(id: MessageID, file: Option<Bytes>) returns (reply: Option<(EventMessage, Bytes)>)
      requires Valid()
      ensures reply == Reply(channel.Value(), id, file)
      ensures reply.Some? && reply.value.0.payload.mime == MIME_PATH ==> Some(reply.value.1) == file
    {
      var found := channel.Get(id);
      if found.None? {
        return None;
      }
      var ev := found.value;
      if ev.payload.id != id {
        return None;
      }
      if IsPath(ev.payload.mime) {
        reply := if file.None? then None else Some((ev, file.value));
      } else {
        reply := Some((ev, ev.payload.data));
      }
    }

    /** The message case of the monitor's select: write the clipboard, then announce to the peers returned. */
    method Inject(ev: EventMessage) returns (announcedTo: set<NodeID>)
      requires Valid()
      modifies this, collector
      ensures Valid()
      ensures Value() == Injected(old(Value()), me, ev)
      ensures announcedTo == peers - {ev.from}
      ensures ev.from == me ==> Value() == old(Value())
      ensures ev.from != me && (ev.payload.batchID == 0 || ev.payload.batchTotal <= 1) ==>
        collector.batches == old(collector.batches) && clip == old(clip) + [Whole(ev.payload)]
    {
      if ev.from != me {
        if ev.payload.batchID != 0 && ev.payload.batchTotal > 1 {
          var ready := collector.Add(ev.payload);
          if ready.Some? {
            clip := clip + [Batched(ev.payload.batchID, ev.payload.mime, ready.value)];
          }
        } else {
          clip := clip + [Whole(ev.payload)];
        }
      }
      announcedTo := Broadcast(AnnounceOf(ev));
    }

    /** Visits the peers in any order and writes the announce to all but its author. */
    method Broadcast(ann: EventAnnounce) returns (announcedTo: set<NodeID>)
      ensures announcedTo == peers - {ann.from}
    {
      announcedTo := {};
      var rest := peers;
      while rest != {}
        invariant rest <= peers
        invariant announcedTo == peers - rest - {ann.from}
        decreases |rest|
      {
        var id :| id in rest;
        rest := rest - {id};
        if id == ann.from {
          continue;
        }
        announcedTo := announcedTo + {id};
      }
    }
  }

  /** The missing part of a batch closes it, whether it arrives, is announced as too large, or fails to come whole;
      but the batch is written to the clipboard only if it arrives. What a refusal completes is dropped. */
  lemma BatchIsWrittenOnlyIfLastPartArrives(st: NodeState, me: NodeID, peers: set<NodeID>, maxSize: Uint64,
                                            ev: EventMessage, ann: EventAnnounce, failed: EventMessage, raw: Bytes,
                                            stored: Option<Bytes>)
    requires ev.from != me && IsBatched(ev.payload) && Ready(st.batches, ev.payload).Some?
    requires ann.from in peers && maxSize < ann.payload.length
    requires ann.payload.id == ev.payload.id && ann.payload.batchID == ev.payload.batchID
    requires ann.payload.batchTotal == ev.payload.batchTotal
    requires Intake(maxSize, failed.payload, raw, stored).None?
    requires failed.payload.id == ev.payload.id && failed.payload.batchID == ev.payload.batchID
    requires failed.payload.batchTotal == ev.payload.batchTotal
    ensures
      var arrived := Injected(st, me, ev);
      var refused := AnnounceHandled(st, peers, maxSize, ann);
      var cut := MessageHandled(st, maxSize, failed, raw, stored);
      && ev.payload.batchID !in arrived.batches && arrived.batches == refused.batches == cut.batches
      && arrived.clip == st.clip + [Batched(ev.payload.batchID, ev.payload.mime, Ready(st.batches, ev.payload).value)]
      && refused.clip == cut.clip == st.clip
  {
    SameIdSameCompletion(st.batches, ev.payload, NackOf(ann.payload));
    SameIdSameCompletion(st.batches, ev.payload, failed.payload.(data := []));
    hide Complete, WithItem, Joined;
  }

  /** Whether a part completes its batch is a matter of its id, not of its data. */
  lemma SameIdSameCompletion(b: Batches, x: Message, y: Message)
    requires x.id == y.id && x.batchID == y.batchID && x.batchTotal == y.batchTotal
    ensures Complete(WithItem(b, x)) <==> Complete(WithItem(b, y))
  {
    var xs, ys := WithItem(b, x).items, WithItem(b, y).items;
    assert xs.Keys == ys.Keys && |xs| == |xs.Keys| && |ys| == |ys.Keys|;
  }

  /** The second part of a batch of two is announced as too large: nothing is written and the batch is gone. */
  lemma RefusedBatchIsLost()
    ensures
      var st := NEW_NODE.(batches := map[7 := BatchState(2, map[1 := [65]])]);
      var ann: EventAnnounce := Event(3, 0, Announce(2, MIME_PATH, 9, 10, 7, 2));
      AnnounceHandled(st, {3}, 5, ann) == NEW_NODE
  {
    SecondPartCompletes(NackOf(Announce(2, MIME_PATH, 9, 10, 7, 2)));
  }

  /** The second part is within the limit and is asked for, but its stream is cut short: the same. */
  lemma CutShortBatchIsLost()
    ensures
      var st := NEW_NODE.(batches := map[7 := BatchState(2, map[1 := [65]])]);
      var ann: EventAnnounce := Event(3, 0, Announce(2, MIME_TEXT, 9, 3, 7, 2));
      var ev: EventMessage := Event(3, 0, Message(2, [], MIME_TEXT, 9, 3, [], 7, 2));
      && AnnounceHandled(st, {3}, 5, ann) == st && Requests(st, {3}, 5, ann)
      && MessageHandled(st, 5, ev, [], None) == NEW_NODE
  {
    SecondPartCompletes(Message(2, [], MIME_TEXT, 9, 3, [], 7, 2));
  }

  lemma SecondPartCompletes(msg: Message)
    requires msg.id == 2 && msg.batchID == 7
    ensures Collected(map[7 := BatchState(2, map[1 := [65]])], msg) == map[]
  {
    var items: map<MessageID, Bytes> := map[1 := [65]][2 := msg.data];
    assert items.Keys == {1, 2} && |items| == |items.Keys| == 2;
    assert (map[7 := BatchState(2, map[1 := [65]])] - {7}) == map[];
  }

  // What the watcher drops of a copy of several files.

  lemma {:induction false} PassedAreNoMore(st: NodeState, evs: seq<EventMessage>)
    ensures |PassedOf(st, evs)| <= |evs|
  {
    if evs != [] {
      PassedAreNoMore(st, evs[..|evs| - 1]);
    }
  }

  /** What differs in id and content from what has just passed passes next. */
  lemma OtherPasses(st: NodeState, ev: EventMessage, next: EventMessage)
    requires CopyPasses(st, ev) && !next.payload.Zero()
    requires ev.payload.id != next.payload.id && ev.payload.hash != next.payload.hash
    ensures CopyPasses(Copied(st, ev), next)
  {
  }

  ghost predicate AllDiffer(evs: seq<EventMessage>) {
    && (forall i :: 0 <= i < |evs| ==> !evs[i].payload.Zero())
    && (forall i, j :: 0 <= i < j < |evs| ==>
          evs[i].payload.id != evs[j].payload.id && evs[i].payload.hash != evs[j].payload.hash)
  }

  lemma LastPasses(st: NodeState, evs: seq<EventMessage>)
    requires evs != [] && PassedOf(st, evs) == evs
    ensures PassedOf(st, evs[..|evs| - 1]) == evs[..|evs| - 1]
    ensures CopyPasses(CopiedAll(st, evs[..|evs| - 1]), evs[|evs| - 1])
  {
    hide CopyPasses;
    PassedAreNoMore(st, evs[..|evs| - 1]);
    assert evs == evs[..|evs| - 1] + [evs[|evs| - 1]];
  }

  /** Messages of different ids and contents get past the watcher and the channel all if the first does, and only
      then. */
  lemma {:induction false} AllPassExactlyWhenFirstDoes(st: NodeState, evs: seq<EventMessage>)
    requires evs != [] && AllDiffer(evs)
    ensures PassedOf(st, evs) == evs <==> CopyPasses(st, evs[0])
  {
    hide CopyPasses, Copied;
    var n := |evs| - 1;
    var rest := evs[..n];
    assert evs == rest + [evs[n]];
    if n == 0 {
      assert rest == [];
    } else {
      AllPassExactlyWhenFirstDoes(st, rest);
      if CopyPasses(st, evs[0]) {
        LastPasses(st, rest);
        assert CopiedAll(st, rest) == Copied(CopiedAll(st, rest[..n - 1]), rest[n - 1]);
        OtherPasses(CopiedAll(st, rest[..n - 1]), evs[n - 1], evs[n]);
      } else if PassedOf(st, evs) == evs {
        LastPasses(st, evs);
      }
    }
  }

  /** A file that was the last to be copied is dropped when it comes first in the next copy, and the other file is let
      through alone. */
  lemma FileCopiedTwiceIsDropped()
    ensures
      var file: EventMessage := Event(0, 0, Message(1, [65], MIME_PATH, 1, 1, [65], 0, 0));
      var st := Copied(NEW_NODE, file);
      var again: EventMessage := Event(0, 0, Message(2, [65], MIME_PATH, 1, 1, [65], 7, 2));
      var other: EventMessage := Event(0, 0, Message(3, [66], MIME_PATH, 2, 1, [66], 7, 2));
      PassedOf(st, [again, other]) == [other]
  {
    var file: EventMessage := Event(0, 0, Message(1, [65], MIME_PATH, 1, 1, [65], 0, 0));
    var st := Copied(NEW_NODE, file);
    var again: EventMessage := Event(0, 0, Message(2, [65], MIME_PATH, 1, 1, [65], 7, 2));
    var other: EventMessage := Event(0, 0, Message(3, [66], MIME_PATH, 2, 1, [66], 7, 2));
    assert [again, other][..1] == [again] && [again][..0] == [];
    assert st.current == file.payload && st.chan.last == file;
    assert PassedOf(st, [again]) == PassedOf(st, []) && CopiedAll(st, [again]) == st;
  }
}
