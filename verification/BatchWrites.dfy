/** When a completed batch reaches the clipboard, over every run of one node. */
module BatchWrites {
  import opened Wrappers
  import opened Machine
  import opened Domain
  import opened Channel
  import opened Batch
  import opened Node
  import opened Gossip

  /** The node: its id, its peers and the largest message it takes. */
  datatype Place = Place(me: NodeID, peers: set<NodeID>, maxSize: Uint64)

  /** Everything that happens at one node. */
  datatype NodeOp =
    | CopyOp(ev: EventMessage)
    | HearOp(ann: EventAnnounce)
    | AnnounceOp(ann: EventAnnounce)
    | MessageOp(ev: EventMessage, raw: Bytes, stored: Option<Bytes>)
    | InjectOp(ev: EventMessage)
    | ExpiryOp(bID: MessageID)

  ghost function After(at: Place, st: NodeState, op: NodeOp): NodeState {
    match op
    case CopyOp(ev) => Copied(st, ev)
    case HearOp(ann) => st.(chan := Announced(st.chan, ann))
    case AnnounceOp(ann) => AnnounceHandled(st, at.peers, at.maxSize, ann)
    case MessageOp(ev, raw, stored) => MessageHandled(st, at.maxSize, ev, raw, stored)
    case InjectOp(ev) => Injected(st, at.me, ev)
    case ExpiryOp(bID) => st.(batches := st.batches - {bID})
  }

  /** The node after a run of operations on a new one. */
  ghost function NodeRun(at: Place, ops: seq<NodeOp>): NodeState {
    if ops == [] then NEW_NODE else After(at, NodeRun(at, ops[..|ops| - 1]), ops[|ops| - 1])
  }

  /** A part of a batch arrives. */
  predicate Arrives(at: Place, op: NodeOp) {
    op.InjectOp? && op.ev.from != at.me && IsBatched(op.ev.payload)
  }

  /** A part of a batch is announced as too large. */
  predicate RefusesAnnounce(at: Place, op: NodeOp) {
    op.AnnounceOp? && op.ann.from in at.peers && at.maxSize < op.ann.payload.length && op.ann.payload.batchID != 0
  }

  /** A part of a batch comes too large after all, cut short, or can not be stored. */
  predicate RefusesMessage(at: Place, op: NodeOp) {
    op.MessageOp? && Intake(at.maxSize, op.ev.payload, op.raw, op.stored).None? && op.ev.payload.batchID != 0
  }

  predicate HasPart(at: Place, op: NodeOp) {
    Arrives(at, op) || RefusesAnnounce(at, op) || RefusesMessage(at, op)
  }

  /** What the operation adds to a batch. */
  function PartOf(at: Place, op: NodeOp): Message
    requires HasPart(at, op)
  {
    if Arrives(at, op) then op.ev.payload
    else if RefusesAnnounce(at, op) then NackOf(op.ann.payload)
    else op.ev.payload.(data := [])
  }

  /** What the operation is to the batch collector. */
  function Collects(at: Place, op: NodeOp): seq<Op> {
    if HasPart(at, op) then [AddOp(PartOf(at, op))] else if op.ExpiryOp? then [ExpireOp(op.bID)] else []
  }

  function CollectorOps(at: Place, ops: seq<NodeOp>): seq<Op> {
    if ops == [] then [] else CollectorOps(at, ops[..|ops| - 1]) + Collects(at, ops[|ops| - 1])
  }

  lemma OpCollects(at: Place, st: NodeState, op: NodeOp)
    ensures After(at, st, op).batches ==
      if Collects(at, op) == [] then st.batches else Next(st.batches, Collects(at, op)[0])
  {
    hide Collected, Ready, Sent, Announced;
  }

  /** The open batches of a node are those of a collector that got the parts of its run. */
  lemma {:induction false} NodeRunsCollector(at: Place, ops: seq<NodeOp>)
    ensures NodeRun(at, ops).batches == Batch.Run(CollectorOps(at, ops))
  {
    if ops != [] {
      var before, op := ops[..|ops| - 1], ops[|ops| - 1];
      NodeRunsCollector(at, before);
      OpCollects(at, NodeRun(at, before), op);
      hide After, Collects, Next;
      var all, rest := CollectorOps(at, ops), CollectorOps(at, before);
      if Collects(at, op) != [] {
        assert |Collects(at, op)| == 1 by { CollectsOne(at, op); }
        assert all[..|all| - 1] == rest && all[|all| - 1] == Collects(at, op)[0];
      } else {
        assert all == rest;
      }
    }
  }

  lemma CollectsOne(at: Place, op: NodeOp)
    ensures |Collects(at, op)| <= 1
  {
  }

  /** The messages a batch has taken when `op` comes, and its part. */
  function TakenBy(at: Place, ops: seq<NodeOp>, op: NodeOp): seq<Message>
    requires HasPart(at, op)
  {
    Since(CollectorOps(at, ops), PartOf(at, op).batchID) + [PartOf(at, op)]
  }

  /** The operation brings the part that completes its batch. */
  predicate FillsBatch(at: Place, ops: seq<NodeOp>, op: NodeOp) {
    HasPart(at, op) && Fills(TakenBy(at, ops, op))
  }

  /** What `op` writes to the clipboard. */
  ghost function WriteOf(at: Place, ops: seq<NodeOp>, op: NodeOp): seq<ClipWrite> {
    if Arrives(at, op) && FillsBatch(at, ops, op)
      then [Batched(op.ev.payload.batchID, op.ev.payload.mime, Joined(Items(TakenBy(at, ops, op))))]
    else if op.InjectOp? && op.ev.from != at.me && !IsBatched(op.ev.payload) then [Whole(op.ev.payload)]
    else []
  }

  /** After any run an operation writes a batch exactly if it is an arrival that completes the batch, and then it
      writes the join of the batch's parts. */
  lemma OpWritesExactly(at: Place, ops: seq<NodeOp>, op: NodeOp)
    ensures After(at, NodeRun(at, ops), op).clip == NodeRun(at, ops).clip + WriteOf(at, ops, op)
  {
    hide NodeRun, CollectorOps, Collected, Ready, Joined, Fills, Sent, Announced, Accepts, Refused;
    NodeRunsCollector(at, ops);
    if Arrives(at, op) {
      ReadyExactlyWhenFilled(CollectorOps(at, ops), op.ev.payload);
    }
  }

  predicate WritesBatch(w: ClipWrite, bID: MessageID) {
    w.Batched? && w.batchID == bID
  }

  /** How often batch `bID` was written. */
  function WritesOf(clip: seq<ClipWrite>, bID: MessageID): nat {
    if clip == [] then 0
    else WritesOf(clip[..|clip| - 1], bID) + if WritesBatch(clip[|clip| - 1], bID) then 1 else 0
  }

  predicate ArrivalFills(at: Place, ops: seq<NodeOp>, op: NodeOp, bID: MessageID) {
    Arrives(at, op) && op.ev.payload.batchID == bID && FillsBatch(at, ops, op)
  }

  /** How often an arrival completed batch `bID`. */
  function ArrivalsThatFill(at: Place, ops: seq<NodeOp>, bID: MessageID): nat {
    if ops == [] then 0 else
    ArrivalsThatFill(at, ops[..|ops| - 1], bID)
    + if ArrivalFills(at, ops[..|ops| - 1], ops[|ops| - 1], bID) then 1 else 0
  }

  /** Over every run a batch is written as often as an arrival completes it. */
  lemma {:induction false} WritesAreArrivalsThatFill(at: Place, ops: seq<NodeOp>, bID: MessageID)
    ensures WritesOf(NodeRun(at, ops).clip, bID) == ArrivalsThatFill(at, ops, bID)
  {
    hide After, FillsBatch, Arrives, TakenBy, Joined;
    if ops != [] {
      var before, op := ops[..|ops| - 1], ops[|ops| - 1];
      WritesAreArrivalsThatFill(at, before, bID);
      OpWritesExactly(at, before, op);
      var was, clip := NodeRun(at, before).clip, NodeRun(at, ops).clip;
      if WriteOf(at, before, op) == [] {
        assert clip == was;
      } else {
        assert clip[..|clip| - 1] == was;
      }
    }
  }

  /** The parts that go to batch `bID` in a run, arrived or refused. */
  function PartsTo(at: Place, ops: seq<NodeOp>, bID: MessageID): seq<Message> {
    AddsTo(CollectorOps(at, ops), bID)
  }

  lemma PartsToMore(at: Place, ops: seq<NodeOp>, op: NodeOp, bID: MessageID)
    ensures CollectorOps(at, ops + [op]) == CollectorOps(at, ops) + Collects(at, op)
    ensures PartsTo(at, ops + [op], bID) ==
      PartsTo(at, ops, bID) + if HasPart(at, op) && PartOf(at, op).batchID == bID then [PartOf(at, op)] else []
  {
    var all, rest := CollectorOps(at, ops + [op]), CollectorOps(at, ops);
    assert (ops + [op])[..|ops|] == ops;
    if Collects(at, op) == [] {
      assert all == rest;
    } else {
      assert all[..|all| - 1] == rest;
    }
  }

  lemma {:induction false} NoExpiryToCollector(at: Place, ops: seq<NodeOp>, bID: MessageID)
    requires ExpiryOp(bID) !in ops
    ensures ExpireOp(bID) !in CollectorOps(at, ops)
  {
    if ops != [] {
      assert ops[|ops| - 1] in ops;
      NoExpiryToCollector(at, ops[..|ops| - 1], bID);
    }
  }

  /** While a part of it is missing, nothing has completed the batch. */
  lemma {:induction false} NothingFillsBefore(at: Place, ops: seq<NodeOp>, bID: MessageID, ids: set<MessageID>)
    requires ExpiryOp(bID) !in ops && |ids| < TWO32
    requires CarriesIdsOf(PartsTo(at, ops, bID), ids) && Items(PartsTo(at, ops, bID)).Keys != ids
    ensures ArrivalsThatFill(at, ops, bID) == 0
  {
    hide HasPart, PartOf, Collects, FillsBatch, Items, CarriesIdsOf;
    if ops != [] {
      var before, op := ops[..|ops| - 1], ops[|ops| - 1];
      assert ops == before + [op];
      PartsToMore(at, before, op, bID);
      StillIncomplete(at, before, op, bID, ids);
      NothingFillsBefore(at, before, bID, ids);
    }
  }

  lemma StillIncomplete(at: Place, ops: seq<NodeOp>, op: NodeOp, bID: MessageID, ids: set<MessageID>)
    requires ExpiryOp(bID) !in ops + [op] && |ids| < TWO32
    requires CarriesIdsOf(PartsTo(at, ops + [op], bID), ids) && Items(PartsTo(at, ops + [op], bID)).Keys != ids
    ensures ExpiryOp(bID) !in ops && CarriesIdsOf(PartsTo(at, ops, bID), ids)
    ensures Items(PartsTo(at, ops, bID)).Keys != ids
    ensures !ArrivalFills(at, ops, op, bID)
  {
    PartsToMore(at, ops, op, bID);
    var was, now := PartsTo(at, ops, bID), PartsTo(at, ops + [op], bID);
    assert forall m :: m in was ==> m in now;
    assert now[..|was|] == was;
    ItemsGrow(now, |was|);
    ItemsAreIdsSeen(now, ids);
    if HasPart(at, op) && PartOf(at, op).batchID == bID {
      NoExpiryToCollector(at, ops, bID);
      SinceIsEveryAdd(CollectorOps(at, ops), bID, ids);
      FillsExactlyWhenComplete(now, ids);
    }
  }

  /** For a batch of at least two distinct parts that does not expire, and the operation that brings its last missing
      part: the batch was not written before, it is closed now, and it has been written, once, if and only if that
      operation is the arrival of a part. Otherwise it has not been written at all. */
  lemma BatchIsWrittenExactlyWhenLastPartArrives(at: Place, ops: seq<NodeOp>, op: NodeOp, bID: MessageID,
                                                 ids: set<MessageID>)
    requires 2 <= |ids| < TWO32 && ExpiryOp(bID) !in ops
    requires HasPart(at, op) && PartOf(at, op).batchID == bID
    requires CarriesIdsOf(PartsTo(at, ops + [op], bID), ids)
    requires Items(PartsTo(at, ops, bID)).Keys != ids && Items(PartsTo(at, ops + [op], bID)).Keys == ids
    ensures WritesOf(NodeRun(at, ops).clip, bID) == 0
    ensures bID !in NodeRun(at, ops + [op]).batches
    ensures WritesOf(NodeRun(at, ops + [op]).clip, bID) == 1 <==> Arrives(at, op)
    ensures WritesOf(NodeRun(at, ops + [op]).clip, bID) == 0 <==> RefusesAnnounce(at, op) || RefusesMessage(at, op)
  {
    LastPartFills(at, ops, op, bID, ids);
    NothingFillsBefore(at, ops, bID, ids);
    WritesAreArrivalsThatFill(at, ops, bID);
    WritesAreArrivalsThatFill(at, ops + [op], bID);
    ClosedWhenFilled(at, ops, op);
    hide NodeRun, FillsBatch, PartsTo, CarriesIdsOf, Items;
    assert (ops + [op])[..|ops|] == ops;
  }

  lemma LastPartFills(at: Place, ops: seq<NodeOp>, op: NodeOp, bID: MessageID, ids: set<MessageID>)
    requires |ids| < TWO32 && ExpiryOp(bID) !in ops
    requires HasPart(at, op) && PartOf(at, op).batchID == bID
    requires CarriesIdsOf(PartsTo(at, ops + [op], bID), ids)
    requires Items(PartsTo(at, ops, bID)).Keys != ids && Items(PartsTo(at, ops + [op], bID)).Keys == ids
    ensures CarriesIdsOf(PartsTo(at, ops, bID), ids) && FillsBatch(at, ops, op)
  {
    PartsToMore(at, ops, op, bID);
    var was, now := PartsTo(at, ops, bID), PartsTo(at, ops + [op], bID);
    assert forall m :: m in was ==> m in now;
    NoExpiryToCollector(at, ops, bID);
    SinceIsEveryAdd(CollectorOps(at, ops), bID, ids);
    FillsExactlyWhenComplete(now, ids);
  }

  lemma ClosedWhenFilled(at: Place, ops: seq<NodeOp>, op: NodeOp)
    requires FillsBatch(at, ops, op)
    ensures PartOf(at, op).batchID !in NodeRun(at, ops + [op]).batches
  {
    NodeRunsCollector(at, ops + [op]);
    PartsToMore(at, ops, op, PartOf(at, op).batchID);
    var all := CollectorOps(at, ops + [op]);
    assert all[..|all| - 1] == CollectorOps(at, ops);
    BatchIsMessagesSinceOpened(all, PartOf(at, op).batchID);
  }

  // ---------------------------------------------------------------- runs of the mesh are runs of its nodes

  function PlaceOf(cfg: Config, n: NodeID): Place {
    Place(n, cfg.Peers(n), cfg.Max(n))
  }

  /** What a step of the mesh is to node `n`. */
  function OpsOf(step: Step, n: NodeID): seq<NodeOp> {
    match step
    case Copy(m, u, id, now) => if m == n && |u.data| < TWO64 then [CopyOp(CopyEvent(m, u, id, now))] else []
    case DeliverAnnounce(p) => if p.dst == n then [HearOp(p.ev)] else []
    case HandleAnnounce(t) => if t.node == n then [AnnounceOp(t.ev)] else []
    case ServeRequest(_, _) => []
    case DeliverMessage(p, stored) => if p.dst == n then [MessageOp(p.ev, p.raw, stored)] else []
    case Inject(i) => if i.node == n then [InjectOp(i.ev)] else []
    case ExpireBatch(m, bID) => if m == n then [ExpiryOp(bID)] else []
  }

  function OpsAt(steps: seq<Step>, n: NodeID): seq<NodeOp> {
    if steps == [] then [] else OpsAt(steps[..|steps| - 1], n) + OpsOf(steps[|steps| - 1], n)
  }

  /** What a step does at a node is what the operation does there. */
  lemma StepIsNodeOp(cfg: Config, s: State, step: Step, n: NodeID)
    requires Enabled(cfg, s, step)
    ensures At(Apply(cfg, s, step), n) ==
      if OpsOf(step, n) == [] then At(s, n) else After(PlaceOf(cfg, n), At(s, n), OpsOf(step, n)[0])
  {
    hide At, Copied, AnnounceHandled, MessageHandled, Injected, Announced, CopyEvent, AfterCopy, AfterDeliverAnnounce,
      AfterHandleAnnounce, AfterServeRequest, AfterDeliverMessage, AfterInject, AfterExpire;
    match step
    case Copy(m, u, id, now) => NodeAfterCopy(cfg, s, m, CopyEvent(m, u, id, now), n);
    case DeliverAnnounce(p) => NodeAfterDeliverAnnounce(s, p, n);
    case HandleAnnounce(t) => NodeAfterHandleAnnounce(cfg, s, t, n);
    case ServeRequest(p, file) => NodeAfterServeRequest(s, p, file, n);
    case DeliverMessage(p, stored) => NodeAfterDeliverMessage(cfg, s, p, stored, n);
    case Inject(i) => NodeAfterInject(cfg, s, i, n);
    case ExpireBatch(m, bID) => NodeAfterExpire(s, m, bID, n);
  }

  lemma OneOpAtMost(step: Step, n: NodeID)
    ensures |OpsOf(step, n)| <= 1
  {
  }

  lemma {:induction false} CanRunBefore(cfg: Config, s: State, steps: seq<Step>)
    requires steps != [] && CanRun(cfg, s, steps)
    ensures
      var before := steps[..|steps| - 1];
      && CanRun(cfg, s, before) && Enabled(cfg, Gossip.Run(cfg, s, before), steps[|steps| - 1])
      && Gossip.Run(cfg, s, steps) == Apply(cfg, Gossip.Run(cfg, s, before), steps[|steps| - 1])
    decreases |steps|
  {
    hide Apply, Enabled;
    var before := steps[..|steps| - 1];
    if before != [] {
      var rest := steps[1..];
      assert before[1..] == rest[..|rest| - 1] && rest[|rest| - 1] == steps[|steps| - 1];
      CanRunBefore(cfg, Apply(cfg, s, steps[0]), rest);
    }
  }

  /** In every run of the mesh each node goes through a run of its own, so what holds of those holds there. */
  lemma {:induction false} MeshRunsNode(cfg: Config, steps: seq<Step>, n: NodeID)
    requires CanRun(cfg, Initial(cfg), steps)
    ensures At(Gossip.Run(cfg, Initial(cfg), steps), n) == NodeRun(PlaceOf(cfg, n), OpsAt(steps, n))
  {
    hide Apply, Enabled, After, OpsOf;
    if steps != [] {
      var before, step := steps[..|steps| - 1], steps[|steps| - 1];
      CanRunBefore(cfg, Initial(cfg), steps);
      MeshRunsNode(cfg, before, n);
      StepIsNodeOp(cfg, Gossip.Run(cfg, Initial(cfg), before), step, n);
      OneOpAtMost(step, n);
      var all, rest := OpsAt(steps, n), OpsAt(before, n);
      if OpsOf(step, n) == [] {
        assert all == rest;
      } else {
        assert all[..|all| - 1] == rest && all[|all| - 1] == OpsOf(step, n)[0];
      }
    }
  }

  /** So at every node of every mesh a batch has been written as often as the arrival of a part completed it. */
  lemma MeshWritesAreArrivalsThatFill(cfg: Config, steps: seq<Step>, n: NodeID, bID: MessageID)
    requires CanRun(cfg, Initial(cfg), steps)
    ensures WritesOf(At(Gossip.Run(cfg, Initial(cfg), steps), n).clip, bID)
         == ArrivalsThatFill(PlaceOf(cfg, n), OpsAt(steps, n), bID)
  {
    MeshRunsNode(cfg, steps, n);
    WritesAreArrivalsThatFill(PlaceOf(cfg, n), OpsAt(steps, n), bID);
  }

  /** What an operation adds to the clipboard. */
  lemma OpClip(at: Place, st: NodeState, op: NodeOp)
    ensures After(at, st, op).clip == st.clip +
      if !op.InjectOp? || op.ev.from == at.me then []
      else if !IsBatched(op.ev.payload) then [Whole(op.ev.payload)]
      else if Ready(st.batches, op.ev.payload).None? then []
      else [Batched(op.ev.payload.batchID, op.ev.payload.mime, Ready(st.batches, op.ev.payload).value)]
  {
    hide Ready, Collected, Sent, Announced, Refused, Intake;
  }

  /** A step of the mesh writes a batch at a node exactly if it is the arrival there of a part, from another node,
      that makes the batch ready. */
  lemma StepWritesBatchExactlyWhen(cfg: Config, s: State, step: Step, n: NodeID)
    requires Enabled(cfg, s, step)
    ensures (exists w: ClipWrite :: w.Batched? && At(Apply(cfg, s, step), n).clip == At(s, n).clip + [w])
       <==> step.Inject? && step.item.node == n && step.item.ev.from != n && IsBatched(step.item.ev.payload)
            && Ready(At(s, n).batches, step.item.ev.payload).Some?
  {
    hide Apply, Enabled, Ready, At, After, CopyEvent;
    StepIsNodeOp(cfg, s, step, n);
    if OpsOf(step, n) != [] {
      OpClip(PlaceOf(cfg, n), At(s, n), OpsOf(step, n)[0]);
    }
    var clip, was := At(Apply(cfg, s, step), n).clip, At(s, n).clip;
    if clip == was {
      forall w: ClipWrite ensures clip != was + [w] {
        assert |was + [w]| == |was| + 1;
      }
    } else {
      var w := clip[|clip| - 1];
      assert clip == was + [w];
      forall v: ClipWrite | clip == was + [v] ensures v == w {
        assert (was + [v])[|was|] == v;
      }
    }
  }
}
