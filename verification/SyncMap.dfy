/** The concurrent map with a counter of its own (pkg/storage/syncmap.go). `Add` and `Delete` change the map and
    the counter in two steps, and anything may happen in between. */
module SyncMap {
  import opened Wrappers

  type Thread = nat

  /** Who has changed the map and not yet the counter. */
  datatype State<!K, V> = State(m: map<K, V>, count: int, adding: set<Thread>, deleting: set<Thread>)

  datatype Step<K, V> =
    | LoadOrStore(t: Thread, k: K, v: V)
    | LoadAndDelete(t: Thread, k: K)
    | CountUp(t: Thread)
    | CountDown(t: Thread)

  predicate Idle<K, V>(s: State<K, V>, t: Thread) {
    t !in s.adding && t !in s.deleting
  }

  predicate CanStep<K, V>(s: State<K, V>, step: Step<K, V>) {
    match step
    case LoadOrStore(t, _, _) => Idle(s, t)
    case LoadAndDelete(t, _) => Idle(s, t)
    case CountUp(t) => t in s.adding
    case CountDown(t) => t in s.deleting
  }

  /** A key that is there keeps its value; the counter is not touched for a key that was there, or was not. */
  function Apply<K, V>(s: State<K, V>, step: Step<K, V>): State<K, V> {
    match step
    case LoadOrStore(t, k, v) => if k in s.m then s else s.(m := s.m[k := v], adding := s.adding + {t})
    case LoadAndDelete(t, k) => if k !in s.m then s else s.(m := s.m - {k}, deleting := s.deleting + {t})
    case CountUp(t) => s.(count := s.count + 1, adding := s.adding - {t})
    case CountDown(t) => s.(count := s.count - 1, deleting := s.deleting - {t})
  }

  function Empty<K, V>(): State<K, V> {
    State(map[], 0, {}, {})
  }

  function After<K, V>(steps: seq<Step<K, V>>): State<K, V> {
    if steps == [] then Empty() else Apply(After(steps[..|steps| - 1]), steps[|steps| - 1])
  }

  ghost predicate CanRun<K, V>(steps: seq<Step<K, V>>) {
    steps == [] ||
    (CanRun(steps[..|steps| - 1]) && CanStep(After(steps[..|steps| - 1]), steps[|steps| - 1]))
  }

  /** The counter makes up for the operations that are in between their steps. */
  ghost predicate Counted<K, V>(s: State<K, V>) {
    s.adding !! s.deleting && s.count == |s.m| - |s.adding| + |s.deleting|
  }

  lemma StepKeepsCounted<K, V>(s: State<K, V>, step: Step<K, V>)
    requires Counted(s) && CanStep(s, step)
    ensures Counted(Apply(s, step))
  {
    if step.LoadAndDelete? && step.k in s.m {
      assert s.m.Keys == (s.m - {step.k}).Keys + {step.k};
      assert |s.m.Keys| == |s.m| && |(s.m - {step.k}).Keys| == |s.m - {step.k}|;
    }
    if step.LoadOrStore? && step.k !in s.m {
      assert s.m[step.k := step.v].Keys == s.m.Keys + {step.k};
      assert |s.m.Keys| == |s.m| && |s.m[step.k := step.v].Keys| == |s.m[step.k := step.v]|;
    }
  }

  /** Under any interleaving the counter is the number of keys, less the additions and plus the deletions not yet
      counted; `Len` is that number exactly when there are as many of the ones as of the others, as when no
      operation is under way. */
  lemma {:induction false} CounterIsKeysLessPending<K, V>(steps: seq<Step<K, V>>)
    requires CanRun(steps)
    ensures var s := After(steps);
      Counted(s) && (s.count == |s.m| <==> |s.adding| == |s.deleting|)
  {
    if steps != [] {
      CounterIsKeysLessPending(steps[..|steps| - 1]);
      StepKeepsCounted(After(steps[..|steps| - 1]), steps[|steps| - 1]);
    }
  }

  /** In between, `Len` may even be negative: a key deleted before its addition was counted. */
  lemma LenMayBeNegative()
    ensures
      var steps := [LoadOrStore(0, 'k', 'v'), LoadAndDelete(1, 'k'), CountDown(1)];
      CanRun(steps) && After(steps).count == -1 && After(steps).m == map[]
  {
    var a: Step<char, char>, b: Step<char, char>, c: Step<char, char> :=
      LoadOrStore(0, 'k', 'v'), LoadAndDelete(1, 'k'), CountDown(1);
    var steps := [a, b, c];
    assert steps[..2] == [a, b] && steps[..2][..1] == [a] && [a][..0] == [];
    assert After([a]) == State(map['k' := 'v'], 0, {0}, {});
    assert After([a, b]) == State(map[], 0, {0}, {1});
    assert CanRun([a]) && CanRun([a, b]);
  }

  /** The value of the first addition of `k` after the last deletion of it. */
  function FirstSinceDeleted<K(==), V>(steps: seq<Step<K, V>>, k: K): Option<V> {
    if steps == [] then None else
    var before := FirstSinceDeleted(steps[..|steps| - 1], k);
    match steps[|steps| - 1]
    case LoadOrStore(_, key, v) => if key == k && before.None? then Some(v) else before
    case LoadAndDelete(_, key) => if key == k then None else before
    case _ => before
  }

  /** Adding a key that is there changes nothing: the first value stays until it is deleted. */
  lemma {:induction false} FirstValueStays<K, V>(steps: seq<Step<K, V>>, k: K)
    ensures FirstSinceDeleted(steps, k) == if k in After(steps).m then Some(After(steps).m[k]) else None
  {
    if steps != [] {
      FirstValueStays(steps[..|steps| - 1], k);
    }
  }

  /** The map itself, its operations run one at a time. */
  class SyncMap<K(==), V> {
    var m: map<K, V>
    var count: int

    ghost predicate Valid()
      reads this
    {
      count == |m|
    }

    constructor ()
      ensures Valid() && m == map[]
    {
      m, count := map[], 0;
    }

    method Add(k: K, v: V)
      requires Valid()
      modifies this
      ensures Valid() && m == if k in old(m) then old(m) else old(m)[k := v]
    {
      ghost var s := State(m, count, {}, {});
      var loaded := k in m;
      if !loaded {
        m := m[k := v];
        StepKeepsCounted(s, LoadOrStore(0, k, v));
        count := count + 1;
      }
    }

    method Delete(k: K)
      requires Valid()
      modifies this
      ensures Valid() && m == old(m) - {k}
    {
      ghost var s := State(m, count, {}, {});
      var loaded := k in m;
      if loaded {
        m := m - {k};
        StepKeepsCounted(s, LoadAndDelete(0, k));
        count := count - 1;
      }
    }

    method Len() returns (n: int)
      requires Valid()
      ensures n == |m|
    {
      n := count;
    }
  }
}
