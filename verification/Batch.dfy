/** internal/channel/batch.go: parts of one copy, gathered until all have arrived. */
module Batch {
  import opened Wrappers
  import opened Machine
  import opened Domain
  import opened Order
  import opened Collections
  import Lines

  datatype BatchState = BatchState(total: Uint32, items: map<MessageID, Bytes>)

  type Batches = map<MessageID, BatchState>

  /** `bytes.Join(parts, "\n")`. */
  function JoinLines(parts: seq<Bytes>): Bytes {
    Lines.Join(parts, [Lines.NEWLINE])
  }

  function Part(data: Bytes): seq<Bytes> {
    if data == [] then [] else [data]
  }

  /** The non-empty parts, in some order. */
  ghost function Listing(items: map<MessageID, Bytes>): seq<Bytes>
    decreases |items|
  {
    if items == map[] then [] else
    var k :| k in items;
    Part(items[k]) + Listing(items - {k})
  }

  /** The parts of a batch, whatever order they are listed in. */
  ghost function Bag(items: map<MessageID, Bytes>): multiset<Bytes> {
    multiset(Listing(items))
  }

  lemma BagOfSome(items: map<MessageID, Bytes>) returns (c: MessageID)
    requires items != map[]
    ensures c in items && Bag(items) == multiset(Part(items[c])) + Bag(items - {c})
  {
    c :| c in items && Listing(items) == Part(items[c]) + Listing(items - {c});
  }

  lemma {:induction false} BagWithout(items: map<MessageID, Bytes>, k: MessageID)
    requires k in items
    ensures Bag(items) == multiset(Part(items[k])) + Bag(items - {k})
    decreases |items|
  {
    var c := BagOfSome(items);
    if c != k {
      SizeWithout(items, c);
      SizeWithout(items, k);
      var rest := items - {k} - {c};
      assert items - {c} - {k} == rest;
      BagWithout(items - {c}, k);
      BagWithout(items - {k}, c);
    }
  }

  lemma SizeWithout(items: map<MessageID, Bytes>, k: MessageID)
    requires k in items
    ensures |items - {k}| == |items| - 1
  {
    assert (items - {k}).Keys == items.Keys - {k};
    assert |items| == |items.Keys| && |items - {k}| == |(items - {k}).Keys|;
  }

  /** The bytes a completed batch stands for: its sorted non-empty parts, one per line. */
  ghost function Joined(items: map<MessageID, Bytes>): Bytes {
    JoinLines(Sort(Listing(items)))
  }

  /** The items that hold the part `part`. */
  ghost function Holders(items: map<MessageID, Bytes>, part: Bytes): set<MessageID> {
    set k | k in items && items[k] == part
  }

  /** A part that is not empty counts as often as there are items that hold it, an empty one not at all. */
  lemma {:induction false} BagCountsHolders(items: map<MessageID, Bytes>, part: Bytes)
    ensures Bag(items)[part] == if part == [] then 0 else |Holders(items, part)|
    decreases |items|
  {
    if items == map[] {
      assert Listing(items) == [] && Holders(items, part) == {};
    } else {
      var c := BagOfSome(items);
      SizeWithout(items, c);
      BagCountsHolders(items - {c}, part);
      var rest := Holders(items - {c}, part);
      assert Holders(items, part) == if items[c] == part then rest + {c} else rest;
    }
  }

  /** `parts` lists the non-empty parts, as often as there are items that hold them, and of two neighbours the first is
      a prefix of the second or has the smaller byte where they first differ. */
  ghost predicate ListsInOrder(parts: seq<Bytes>, items: map<MessageID, Bytes>) {
    && (forall part :: multiset(parts)[part] == if part == [] then 0 else |Holders(items, part)|)
    && InByteOrder(parts)
  }

  /** There is just one such list, and a completed batch is its lines. */
  lemma JoinedIsListInOrder(items: map<MessageID, Bytes>) returns (parts: seq<Bytes>)
    ensures ListsInOrder(parts, items) && Joined(items) == JoinLines(parts)
    ensures forall other :: ListsInOrder(other, items) ==> other == parts
  {
    hide InByteOrder, Holders;
    parts := Sort(Listing(items));
    SortedExactlyWhenInByteOrder(Listing(items), parts);
    forall part ensures Bag(items)[part] == if part == [] then 0 else |Holders(items, part)| {
      BagCountsHolders(items, part);
    }
    forall other | ListsInOrder(other, items) ensures other == parts {
      assert forall part :: multiset(other)[part] == Bag(items)[part];
      SortedExactlyWhenInByteOrder(Listing(items), other);
    }
  }

  /** An empty part takes up a place in the batch and adds no bytes to it. */
  lemma EmptyPartAddsNoBytes(items: map<MessageID, Bytes>, k: MessageID)
    requires k in items && items[k] == []
    ensures Joined(items) == Joined(items - {k})
  {
    BagWithout(items, k);
    SortIgnoresOrder(Listing(items), Listing(items - {k}));
  }

  /** The state of the message's batch once the message is in. */
  function WithItem(b: Batches, msg: Message): BatchState {
    var state := if msg.batchID in b then b[msg.batchID] else BatchState(msg.batchTotal, map[]);
    state.(items := state.items[msg.id := msg.data])
  }

  predicate Complete(state: BatchState) {
    |state.items| % TWO32 == state.total
  }

  /** The effect of `BatchCollector.Add`. */
  function Collected(b: Batches, msg: Message): Batches {
    if Complete(WithItem(b, msg)) then b - {msg.batchID} else b[msg.batchID := WithItem(b, msg)]
  }

  /** The answer of `BatchCollector.Add`. */
  ghost function Ready(b: Batches, msg: Message): Option<Bytes> {
    if Complete(WithItem(b, msg)) then Some(Joined(WithItem(b, msg).items)) else None
  }

  /** An open batch has at least one item and is short of its total by at least one. */
  ghost predicate AllOpen(b: Batches) {
    forall k :: k in b ==>
      1 <= |b[k].items| < TWO32 && (1 <= b[k].total ==> |b[k].items| < b[k].total)
  }

  lemma SizeWith(items: map<MessageID, Bytes>, k: MessageID, data: Bytes)
    ensures |items| <= |items[k := data]| <= |items| + 1
    ensures 1 <= |items[k := data]|
  {
    var after := items[k := data];
    assert after.Keys == items.Keys + {k};
    assert |after| == |after.Keys| && |items| == |items.Keys|;
    assert k in after.Keys;
  }

  lemma CollectedStaysOpen(b: Batches, msg: Message)
    requires AllOpen(b)
    ensures AllOpen(Collected(b, msg))
  {
    SizeWith(if msg.batchID in b then b[msg.batchID].items else map[], msg.id, msg.data);
  }

  /** Writing a batch twice, or writing and deleting it, leaves the other batches alone. */
  lemma Overwritten(b: Batches, k: MessageID, first: BatchState, second: BatchState)
    ensures b[k := first][k := second] == b[k := second]
    ensures b[k := second] - {k} == b - {k}
  {
  }

  class BatchCollector {
    var batches: Batches

    ghost predicate Valid()
      reads this
    {
      AllOpen(batches)
    }

    constructor ()
      ensures Valid() && batches == map[]
    {
      batches := map[];
    }

    method Add(msg: Message) returns (joined: Option<Bytes>)
      requires Valid()
      modifies this
      ensures Valid()
      ensures batches == Collected(old(batches), msg)
      ensures joined == Ready(old(batches), msg)
      ensures joined.Some? ==>
        exists list :: ListsInOrder(list, WithItem(old(batches), msg).items) && joined.value == JoinLines(list)
    {
      CollectedStaysOpen(batches, msg);
      ghost var before := batches;
      var bID := msg.batchID;
      if bID !in batches {
        batches := batches[bID := BatchState(msg.batchTotal, map[])];
      }
      var state := batches[bID];
      state := state.(items := state.items[msg.id := msg.data]);
      Overwritten(before, bID, BatchState(msg.batchTotal, map[]), state);
      batches := batches[bID := state];
      if |state.items| % TWO32 == state.total {
        batches := batches - {bID};
        var bytes := Join(state.items);
        ghost var list := JoinedIsListInOrder(state.items);
        joined := Some(bytes);
      } else {
        joined := None;
      }
    }

    /** The timer callback. It deletes by id, so it may hit a batch opened after the one it was set for. */
    method Expire(bID: MessageID)
      requires Valid()
      modifies this
      ensures Valid()
      ensures batches == old(batches) - {bID}
    {
      batches := batches - {bID};
    }

    /** Visits the items in whatever order the map yields them. */
    method Join(items: map<MessageID, Bytes>) returns (bytes: Bytes)
      ensures bytes == Joined(items)
      ensures exists list :: ListsInOrder(list, items) && bytes == JoinLines(list)
    {
      var parts: seq<Bytes> := [];
      var rest := items;
      while rest != map[]
        invariant multiset(parts) + Bag(rest) == Bag(items)
        decreases |rest|
      {
        var k :| k in rest;
        BagWithout(rest, k);
        SizeWithout(rest, k);
        if |rest[k]| > 0 {
          parts := parts + [rest[k]];
        }
        rest := rest - {k};
      }
      assert Listing(rest) == [];
      SortIgnoresOrder(parts, Listing(items));
      bytes := JoinLines(Sort(parts));
      ghost var list := JoinedIsListInOrder(items);
    }
  }

  datatype Op = AddOp(msg: Message) | ExpireOp(bID: MessageID)

  function Next(b: Batches, op: Op): Batches {
    match op
    case AddOp(msg) => Collected(b, msg)
    case ExpireOp(bID) => b - {bID}
  }

  /** The collector after a run of calls and expiries on a new one. */
  function Run(ops: seq<Op>): Batches {
    if ops == [] then map[] else Next(Run(ops[..|ops| - 1]), ops[|ops| - 1])
  }

  /** The parts of a list of messages, the last one for each id. */
  function Items(msgs: seq<Message>): map<MessageID, Bytes> {
    if msgs == [] then map[] else
    var last := msgs[|msgs| - 1];
    Items(msgs[..|msgs| - 1])[last.id := last.data]
  }

  predicate Fills(msgs: seq<Message>) {
    msgs != [] && |Items(msgs)| % TWO32 == msgs[0].batchTotal
  }

  /** The messages a batch has taken since it was opened: none when it is not open. */
  function Since(ops: seq<Op>, bID: MessageID): seq<Message> {
    if ops == [] then [] else
    var before := Since(ops[..|ops| - 1], bID);
    match ops[|ops| - 1]
    case AddOp(msg) =>
      if msg.batchID != bID then before
      else if Fills(before + [msg]) then []
      else before + [msg]
    case ExpireOp(id) => if id == bID then [] else before
  }

  /** What the collector holds for a batch that has taken `msgs` since it was opened. */
  ghost predicate Holds(b: Batches, bID: MessageID, msgs: seq<Message>) {
    && (bID in b <==> msgs != [])
    && (bID in b ==> b[bID] == BatchState(msgs[0].batchTotal, Items(msgs)))
  }

  lemma AddToHeld(b: Batches, msg: Message, msgs: seq<Message>)
    requires Holds(b, msg.batchID, msgs)
    ensures WithItem(b, msg) == BatchState((msgs + [msg])[0].batchTotal, Items(msgs + [msg]))
    ensures Complete(WithItem(b, msg)) <==> Fills(msgs + [msg])
  {
    assert (msgs + [msg])[..|msgs|] == msgs;
  }

  /** In every run an open batch is its messages since it was opened, and no operation on another batch touches it. */
  lemma {:induction false} BatchIsMessagesSinceOpened(ops: seq<Op>, bID: MessageID)
    ensures Holds(Run(ops), bID, Since(ops, bID))
  {
    if ops != [] {
      BatchIsMessagesSinceOpened(ops[..|ops| - 1], bID);
      var op := ops[|ops| - 1];
      if op.AddOp? && op.msg.batchID == bID {
        AddToHeld(Run(ops[..|ops| - 1]), op.msg, Since(ops[..|ops| - 1], bID));
      }
    }
  }

  lemma {:induction false} RunKeepsBatchesOpen(ops: seq<Op>)
    ensures AllOpen(Run(ops))
  {
    if ops != [] {
      RunKeepsBatchesOpen(ops[..|ops| - 1]);
      if ops[|ops| - 1].AddOp? {
        CollectedStaysOpen(Run(ops[..|ops| - 1]), ops[|ops| - 1].msg);
      }
    }
  }

  /** A part is ready exactly when the messages since the batch opened fill it, and then it is their join. */
  lemma ReadyExactlyWhenFilled(ops: seq<Op>, msg: Message)
    ensures
      var msgs := Since(ops, msg.batchID) + [msg];
      Ready(Run(ops), msg) == if Fills(msgs) then Some(Joined(Items(msgs))) else None
  {
    BatchIsMessagesSinceOpened(ops, msg.batchID);
    AddToHeld(Run(ops), msg, Since(ops, msg.batchID));
  }

  /** An item is what the last message with its id brought. */
  lemma {:induction false} ItemsAreLast(msgs: seq<Message>, k: MessageID)
    ensures k in Items(msgs) <==> exists m :: m in msgs && m.id == k
    ensures k in Items(msgs) ==> exists i :: 0 <= i < |msgs| && IsLastOfId(msgs, i, k) && msgs[i].data == Items(msgs)[k]
  {
    if msgs != [] {
      var n := |msgs| - 1;
      ItemsAreLast(msgs[..n], k);
      assert msgs == msgs[..n] + [msgs[n]];
      if msgs[n].id == k {
        assert IsLastOfId(msgs, n, k);
      } else if k in Items(msgs) {
        var i :| 0 <= i < n && IsLastOfId(msgs[..n], i, k) && msgs[..n][i].data == Items(msgs)[k];
        assert IsLastOfId(msgs, i, k);
      }
    }
  }

  ghost predicate IsLastOfId(msgs: seq<Message>, i: nat, k: MessageID)
    requires i < |msgs|
  {
    msgs[i].id == k && forall j :: i < j < |msgs| ==> msgs[j].id != k
  }

  /** So a batch is ready exactly if the ids that it has seen since it was opened number its total, as its first message
      gave it, in 32 bits. */
  lemma ReadyExactlyWhenAsManyIds(ops: seq<Op>, msg: Message)
    ensures
      var msgs := Since(ops, msg.batchID) + [msg];
      Ready(Run(ops), msg).Some? <==> |set m | m in msgs :: m.id| % 0x1_0000_0000 == msgs[0].batchTotal
  {
    hide Ready, Run, Since, Items;
    var msgs := Since(ops, msg.batchID) + [msg];
    ReadyExactlyWhenFilled(ops, msg);
    forall k ensures k in Items(msgs) <==> exists m :: m in msgs && m.id == k {
      ItemsAreLast(msgs, k);
    }
    assert Items(msgs).Keys == set m | m in msgs :: m.id;
    assert |Items(msgs)| == |Items(msgs).Keys|;
  }

  /** The adds of a run that go to `bID`. */
  function AddsTo(ops: seq<Op>, bID: MessageID): seq<Message> {
    if ops == [] then [] else
    var rest := AddsTo(ops[..|ops| - 1], bID);
    match ops[|ops| - 1]
    case AddOp(msg) => if msg.batchID == bID then rest + [msg] else rest
    case ExpireOp(_) => rest
  }

  /** Every message is a part of a batch with the ids `ids`; ids may repeat. */
  ghost predicate CarriesIdsOf(msgs: seq<Message>, ids: set<MessageID>) {
    forall m :: m in msgs ==> m.batchTotal == |ids| && m.id in ids
  }

  lemma {:induction false} ItemsAreIdsSeen(msgs: seq<Message>, ids: set<MessageID>)
    requires CarriesIdsOf(msgs, ids)
    ensures Items(msgs).Keys <= ids && |Items(msgs)| <= |ids|
    ensures |Items(msgs)| == |ids| <==> Items(msgs).Keys == ids
  {
    if msgs != [] {
      var last := msgs[|msgs| - 1];
      assert last in msgs;
      ItemsAreIdsSeen(msgs[..|msgs| - 1], ids);
    }
    SubsetSize(Items(msgs).Keys, ids);
    assert |Items(msgs)| == |Items(msgs).Keys|;
  }

  lemma {:induction false} ItemsGrow(msgs: seq<Message>, n: nat)
    requires n <= |msgs|
    ensures Items(msgs[..n]).Keys <= Items(msgs).Keys
    decreases |msgs|
  {
    if n < |msgs| {
      ItemsGrow(msgs[..|msgs| - 1], n);
      assert msgs[..|msgs| - 1][..n] == msgs[..n];
    } else {
      assert msgs[..n] == msgs;
    }
  }

  lemma FillsExactlyWhenComplete(msgs: seq<Message>, ids: set<MessageID>)
    requires msgs != [] && |ids| < TWO32 && CarriesIdsOf(msgs, ids)
    ensures Fills(msgs) <==> Items(msgs).Keys == ids
  {
    ItemsAreIdsSeen(msgs, ids);
    assert msgs[0] in msgs;
  }

  /** Until the parts of a batch are all in, the batch takes every add that goes to it. */
  lemma {:induction false} SinceIsEveryAdd(ops: seq<Op>, bID: MessageID, ids: set<MessageID>)
    requires ExpireOp(bID) !in ops
    requires |ids| < TWO32 && CarriesIdsOf(AddsTo(ops, bID), ids)
    requires Items(AddsTo(ops, bID)).Keys != ids
    ensures Since(ops, bID) == AddsTo(ops, bID)
  {
    if ops != [] {
      var before, op := ops[..|ops| - 1], ops[|ops| - 1];
      assert op in ops;
      var adds := AddsTo(ops, bID);
      if op.AddOp? && op.msg.batchID == bID {
        var rest := AddsTo(before, bID);
        assert adds == rest + [op.msg];
        FillsExactlyWhenComplete(adds, ids);
        ItemsAreIdsSeen(adds, ids);
        assert adds[..|adds| - 1] == rest;
        ItemsGrow(adds, |adds| - 1);
      }
      SinceIsEveryAdd(before, bID, ids);
    }
  }

  /** Every message carries its own part of the batch `parts`; ids may repeat. */
  ghost predicate CarriesPartsOf(msgs: seq<Message>, parts: map<MessageID, Bytes>) {
    forall m :: m in msgs ==> m.batchTotal == |parts| && m.id in parts && m.data == parts[m.id]
  }

  lemma {:induction false} ItemsArePartsSeen(msgs: seq<Message>, parts: map<MessageID, Bytes>)
    requires CarriesPartsOf(msgs, parts)
    ensures CarriesIdsOf(msgs, parts.Keys)
    ensures forall k :: k in Items(msgs) ==> k in parts && Items(msgs)[k] == parts[k]
    ensures Items(msgs).Keys == parts.Keys <==> Items(msgs) == parts
  {
    assert |parts.Keys| == |parts|;
    if msgs != [] {
      var last := msgs[|msgs| - 1];
      assert last in msgs;
      ItemsArePartsSeen(msgs[..|msgs| - 1], parts);
    }
  }

  /** For a batch of `|parts|` distinct ids: whatever the order of arrival, repeats and traffic of other batches,
      nothing is ready before the last missing part arrives, and then the join of all parts is ready. */
  lemma BatchDelivery(ops: seq<Op>, last: Message, parts: map<MessageID, Bytes>)
    requires ExpireOp(last.batchID) !in ops
    requires |parts| < TWO32 && CarriesPartsOf(AddsTo(ops, last.batchID) + [last], parts)
    requires Items(AddsTo(ops, last.batchID)) != parts
    ensures Ready(Run(ops), last) ==
      if Items(AddsTo(ops, last.batchID) + [last]) == parts then Some(Joined(parts)) else None
  {
    hide Ready, Run, AddsTo, Since, Items;
    var adds := AddsTo(ops, last.batchID);
    assert CarriesPartsOf(adds, parts) by {
      assert forall m :: m in adds ==> m in adds + [last];
    }
    assert |parts.Keys| == |parts|;
    ItemsArePartsSeen(adds, parts);
    ItemsArePartsSeen(adds + [last], parts);
    SinceIsEveryAdd(ops, last.batchID, parts.Keys);
    ReadyExactlyWhenFilled(ops, last);
    FillsExactlyWhenComplete(adds + [last], parts.Keys);
  }
}
