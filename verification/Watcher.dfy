/** The watcher of one node, over every run: which copies get past it, whatever else happens at the node. */
module Watcher {
  import opened Wrappers
  import opened Machine
  import opened Domain
  import opened Channel
  import opened Node
  import opened BatchWrites
  import F = Files
  import U = UriList

  /** `msg` is a message at all, and it is not the previous copy again: it differs from it in id, and in kind or
      content. */
  predicate IsTaken(copies: seq<Message>, msg: Message) {
    && msg.id != 0 && msg.hash != 0 && msg.length != 0
    && (copies != [] ==>
          var last := copies[|copies| - 1];
          msg.id != last.id && (msg.mime != last.mime || msg.hash != last.hash))
  }

  /** The copies that the watcher took in a run, in order. */
  function Copies(ops: seq<NodeOp>): seq<Message> {
    if ops == [] then [] else
    var copies := Copies(ops[..|ops| - 1]);
    match ops[|ops| - 1]
    case CopyOp(ev) => if IsTaken(copies, ev.payload) then copies + [ev.payload] else copies
    case _ => copies
  }

  /** What the watcher compares with is the last copy it took. */
  ghost predicate IsLastOf(st: NodeState, copies: seq<Message>) {
    && st.current == (if copies == [] then ZERO_MESSAGE else copies[|copies| - 1])
    && (copies != [] ==> st.current.id != 0 && st.current.hash != 0 && st.current.length != 0)
  }

  lemma TakenExactlyWhenNew(st: NodeState, copies: seq<Message>, msg: Message)
    requires IsLastOf(st, copies)
    ensures IsNewCopy(st, msg) <==> IsTaken(copies, msg)
  {
  }

  lemma OnlyCopiesAreTaken(at: Place, st: NodeState, op: NodeOp)
    ensures !op.CopyOp? ==> After(at, st, op).current == st.current
  {
    hide Sent, Announced, Intake, Refused, IsBatched;
  }

  lemma {:induction false} WatcherHoldsLastCopy(at: Place, ops: seq<NodeOp>)
    ensures IsLastOf(NodeRun(at, ops), Copies(ops))
  {
    if ops != [] {
      var before, op := ops[..|ops| - 1], ops[|ops| - 1];
      WatcherHoldsLastCopy(at, before);
      if op.CopyOp? {
        TakenExactlyWhenNew(NodeRun(at, before), Copies(before), op.ev.payload);
        hide Sent, IsNewCopy;
      } else {
        OnlyCopiesAreTaken(at, NodeRun(at, before), op);
        hide After;
      }
    }
  }

  /** Over every run of a node a copy passes if and only if the watcher takes it and it does not repeat what the channel
      let through last: that is no message, or it differs from it in id, and in kind or content. */
  lemma CopyPassesExactlyWhen(at: Place, ops: seq<NodeOp>, ev: EventMessage)
    ensures
      var last, msg := NodeRun(at, ops).chan.last.payload, ev.payload;
      CopyPasses(NodeRun(at, ops), ev)
      <==> (&& IsTaken(Copies(ops), msg)
            && (|| last.id == 0 || last.hash == 0 || last.length == 0
                || (msg.id != last.id && (msg.mime != last.mime || msg.hash != last.hash))))
  {
    WatcherHoldsLastCopy(at, ops);
    TakenExactlyWhenNew(NodeRun(at, ops), Copies(ops), ev.payload);
    hide NodeRun, Copies, IsLastOf, IsTaken, IsNewCopy;
  }

  /** A copy of the kind and content of the last copy that the watcher took never passes, whatever the channel has let
      through in between. */
  lemma RepeatedCopyNeverPasses(at: Place, ops: seq<NodeOp>, ev: EventMessage)
    requires Copies(ops) != []
    requires
      var last := Copies(ops)[|Copies(ops)| - 1];
      ev.payload.mime == last.mime && ev.payload.hash == last.hash
    ensures !CopyPasses(NodeRun(at, ops), ev) && After(at, NodeRun(at, ops), CopyOp(ev)) == NodeRun(at, ops)
  {
    WatcherHoldsLastCopy(at, ops);
    TakenExactlyWhenNew(NodeRun(at, ops), Copies(ops), ev.payload);
    hide NodeRun, Copies, IsLastOf, IsNewCopy, Sent;
  }

  /** A text is copied, a part of another node's batch comes through the channel and is not written yet, and the same
      text is copied again: the channel would let it through, the watcher does not. */
  lemma RepeatIsDroppedBehindPart()
    ensures
      var at := Place(1, {2}, 10);
      var text: EventMessage := Event(1, 0, Message(4096, [65], MIME_TEXT, 11, 1, [], 0, 0));
      var part: EventMessage := Event(2, 0, Message(8192, [], MIME_PATH, 12, 1, [66], 7, 2));
      var again: EventMessage := Event(1, 0, Message(4097, [65], MIME_TEXT, 11, 1, [], 0, 0));
      var ops := [CopyOp(text), MessageOp(part, [], Some([66]))];
      && Accepts(NodeRun(at, ops).chan, again) && !CopyPasses(NodeRun(at, ops), again)
      && NodeRun(at, ops + [CopyOp(again)]) == NodeRun(at, ops)
  {
    var at := Place(1, {2}, 10);
    var text: EventMessage := Event(1, 0, Message(4096, [65], MIME_TEXT, 11, 1, [], 0, 0));
    var part: EventMessage := Event(2, 0, Message(8192, [], MIME_PATH, 12, 1, [66], 7, 2));
    var again: EventMessage := Event(1, 0, Message(4097, [65], MIME_TEXT, 11, 1, [], 0, 0));
    var ops := [CopyOp(text), MessageOp(part, [], Some([66]))];
    assert ops[..1] == [CopyOp(text)] && ops[..1][..0] == [] && (ops + [CopyOp(again)])[..2] == ops;
    assert Copies(ops[..1]) == [text.payload] && Copies(ops) == Copies(ops[..1]);
    RepeatedCopyNeverPasses(at, ops, again);
    assert NodeRun(at, []) == NEW_NODE && NodeRun(at, ops[..1]).chan.last == text;
    assert NodeRun(at, ops).chan.last.payload.id == 8192;
  }

  /** A file that is copied again is taken just if it has changed in size or time, or is another file. */
  lemma FileIsTakenAgainExactlyWhenChanged(xxhash: Bytes -> Uint64, f: U.FileInfo, g: U.FileInfo, id: MessageID,
                                           later: MessageID)
    requires id != later && later != 0 && g.size != 0 && |f.path| < TWO64 && |g.path| < TWO64
    requires var x, y := F.Fingerprint(f), F.Fingerprint(g); xxhash(y) != 0 && (x != y ==> xxhash(x) != xxhash(y))
    ensures
      var copy := MessageFromUpdate(F.UpdateOf(xxhash, [f], 0), id);
      var again := MessageFromUpdate(F.UpdateOf(xxhash, [g], 0), later);
      IsTaken([copy], again) <==> f != g
  {
    F.HashesTellFilesApart(xxhash, [f], 0, [g], 0);
    hide F.Fingerprint, F.BatchIDOf, Base;
  }
}
