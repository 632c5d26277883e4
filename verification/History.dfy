/** internal/channel/history.go: a bounded first-in-first-out map. */
module History {
  import opened Wrappers

  const HISTORY_SIZE: nat := 5

  /** The value of a history: keys oldest first, and what each key maps to. */
  datatype Fifo<K(==), V> = Fifo(order: seq<K>, data: map<K, V>)

  ghost predicate Distinct<K>(keys: seq<K>) {
    forall i, j :: 0 <= i < j < |keys| ==> keys[i] != keys[j]
  }

  /** `order` and `data` hold the same keys, each once, and no more than `limit`. */
  ghost predicate ValidFifo<K, V>(f: Fifo<K, V>, limit: nat) {
    && Distinct(f.order) && |f.order| <= limit
    && (forall k :: k in f.data ==> k in f.order)
    && (forall k :: k in f.order ==> k in f.data)
  }

  function Insert<K(==), V>(f: Fifo<K, V>, limit: nat, key: K, value: V): Fifo<K, V>
    requires 0 < limit
  {
    if limit <= |f.order| then Fifo(f.order[1..] + [key], (f.data - {f.order[0]})[key := value])
    else Fifo(f.order + [key], f.data[key := value])
  }

  /** The effect of `fifo.Add`: a key that is present is refused and nothing changes. */
  function Added<K(==), V>(f: Fifo<K, V>, limit: nat, key: K, value: V): Fifo<K, V>
    requires 0 < limit
  {
    if key in f.data then f else Insert(f, limit, key, value)
  }

  lemma AddedIsValid<K, V>(f: Fifo<K, V>, limit: nat, key: K, value: V)
    requires 0 < limit && ValidFifo(f, limit)
    ensures ValidFifo(Added(f, limit, key, value), limit)
  {
    if key !in f.data && limit <= |f.order| {
      assert f.order == [f.order[0]] + f.order[1..];
    }
  }

  class FifoHistory<K(==), V> {
    const limit: nat
    var order: seq<K>
    var data: map<K, V>

    ghost function Value(): Fifo<K, V>
      reads this
    {
      Fifo(order, data)
    }

    ghost predicate Valid()
      reads this
    {
      0 < limit && ValidFifo(Value(), limit)
    }

    constructor (limit: nat)
      requires 0 < limit
      ensures Valid() && this.limit == limit && Value() == Fifo([], map[])
    {
      this.limit := limit;
      order, data := [], map[];
    }

    method Add(key: K, value: V) returns (added: bool)
      requires Valid()
      modifies this
      ensures Valid()
      ensures added <==> key !in old(data)
      ensures Value() == Added(old(Value()), limit, key, value)
    {
      AddedIsValid(Value(), limit, key, value);
      if key in data {
        return false;
      }
      if limit <= |order| {
        var pop := order[0];
        order := order[1..];
        data := data - {pop};
      }
      order := order + [key];
      data := data[key := value];
      return true;
    }

    method Get(key: K) returns (found: Option<V>)
      requires Valid()
      ensures found.Some? <==> key in order
      ensures found.Some? ==> found.value == data[key]
    {
      found := if key in data then Some(data[key]) else None;
    }
  }

  /** The history after a run of `Add` calls on a new one, and the calls that succeeded. */
  function Replay<K(==), V>(limit: nat, calls: seq<(K, V)>): (Fifo<K, V>, seq<(K, V)>)
    requires 0 < limit
  {
    if calls == [] then (Fifo([], map[]), []) else
    var (f, log) := Replay(limit, calls[..|calls| - 1]);
    var (key, value) := calls[|calls| - 1];
    (Added(f, limit, key, value), if key in f.data then log else log + [(key, value)])
  }

  /** The last `limit` entries of a log, or all of it. */
  function Recent<T>(log: seq<T>, limit: nat): (r: seq<T>)
    ensures |r| == if |log| < limit then |log| else limit
  {
    if |log| < limit then log else log[|log| - limit..]
  }

  /** `f` is exactly the last `limit` entries of `log`, in order. */
  ghost predicate IsRecent<K, V>(f: Fifo<K, V>, limit: nat, log: seq<(K, V)>) {
    var recent := Recent(log, limit);
    && ValidFifo(f, limit)
    && |f.order| == |recent|
    && (forall i :: 0 <= i < |recent| ==> f.order[i] == recent[i].0)
    && (forall i :: 0 <= i < |recent| ==> recent[i].0 in f.data && f.data[recent[i].0] == recent[i].1)
  }

  lemma InsertIsRecent<K, V>(f: Fifo<K, V>, limit: nat, log: seq<(K, V)>, key: K, value: V)
    requires 0 < limit && IsRecent(f, limit, log) && key !in f.data
    ensures IsRecent(Insert(f, limit, key, value), limit, log + [(key, value)])
  {
    AddedIsValid(f, limit, key, value);
    var recent, next := Recent(log, limit), Recent(log + [(key, value)], limit);
    var g := Insert(f, limit, key, value);
    if limit <= |f.order| {
      assert next == recent[1..] + [(key, value)];
    } else {
      assert next == recent + [(key, value)];
    }
    forall i | 0 <= i < |next|
      ensures g.order[i] == next[i].0
    {
    }
    forall i | 0 <= i < |next|
      ensures next[i].0 in g.data && g.data[next[i].0] == next[i].1
    {
      if i < |next| - 1 {
        var k := if limit <= |f.order| then i + 1 else i;
        assert next[i] == recent[k];
        assert f.order[k] == recent[k].0 && f.order[k] in f.order;
        assert f.order[k] != key;
      }
    }
  }

  /** A history is exactly the last `limit` successful inserts, in order. */
  lemma {:induction false} HistoryIsRecentInserts<K, V>(limit: nat, calls: seq<(K, V)>)
    requires 0 < limit
    ensures IsRecent(Replay(limit, calls).0, limit, Replay(limit, calls).1)
  {
    if calls != [] {
      HistoryIsRecentInserts(limit, calls[..|calls| - 1]);
      var (f, log) := Replay(limit, calls[..|calls| - 1]);
      var (key, value) := calls[|calls| - 1];
      if key !in f.data {
        InsertIsRecent(f, limit, log, key, value);
      }
    }
  }

  /** The last entries of a log are distinct, and none is a key that the history would take. */
  lemma RecentKeysDiffer<K, V>(f: Fifo<K, V>, limit: nat, log: seq<(K, V)>, key: K)
    requires IsRecent(f, limit, log) && key !in f.data
    ensures forall p :: 0 <= p < |log| && |log| - limit <= p ==> log[p].0 != key
    ensures forall p, q :: 0 <= p < q < |log| && |log| - limit <= p ==> log[p].0 != log[q].0
  {
    var start := if |log| < limit then 0 else |log| - limit;
    var recent := Recent(log, limit);
    forall p | start <= p < |log|
      ensures log[p].0 == f.order[p - start] && log[p].0 in f.data
    {
      assert log[p] == recent[p - start];
    }
  }

  /** A key is inserted again only after `limit` inserts of other, pairwise different keys. */
  lemma {:induction false} ReinsertedOnlyAfterLimitOthers<K, V>(limit: nat, calls: seq<(K, V)>, i: nat, j: nat)
    requires 0 < limit && i < j < |Replay(limit, calls).1|
    requires Replay(limit, calls).1[i].0 == Replay(limit, calls).1[j].0
    ensures
      var log := Replay(limit, calls).1;
      && i + limit < j
      && (forall p :: j - limit <= p < j ==> log[p].0 != log[j].0)
      && (forall p, q :: j - limit <= p < q < j ==> log[p].0 != log[q].0)
  {
    hide IsRecent, Added;
    var (f, log) := Replay(limit, calls[..|calls| - 1]);
    if j < |log| {
      ReinsertedOnlyAfterLimitOthers(limit, calls[..|calls| - 1], i, j);
    } else {
      HistoryIsRecentInserts(limit, calls[..|calls| - 1]);
      RecentKeysDiffer(f, limit, log, calls[|calls| - 1].0);
    }
  }
}
