/** Byte slices pooled by powers of two (pkg/pool/byteslice/byteslice.go). */
module BytePool {
  import opened Machine

  const BUCKETS := 32
  const MAX_INT32 := 0x7FFF_FFFF

  function Pow2(n: nat): (r: nat)
    ensures 1 <= r
  {
    if n == 0 then 1 else 2 * Pow2(n - 1)
  }

  /** `bits.Len32`: the digits of `x` in base two. */
  function BitLength(x: nat): nat {
    if x == 0 then 0 else 1 + BitLength(x / 2)
  }

  /** `bits.Len32(n - 1)`, in 32 bits. */
  function Index(n: Uint32): nat {
    BitLength((n - 1) % TWO32)
  }

  lemma {:induction false} BitLengthBounds(x: nat)
    ensures x < Pow2(BitLength(x)) && (0 < x ==> Pow2(BitLength(x) - 1) <= x)
  {
    if x > 1 {
      BitLengthBounds(x / 2);
      assert Pow2(BitLength(x) - 1) == 2 * Pow2(BitLength(x / 2) - 1);
    }
  }

  lemma {:induction false} Pow2Grows(i: nat, j: nat)
    requires i < j
    ensures 2 * Pow2(i) <= Pow2(j)
  {
    if i + 1 < j {
      Pow2Grows(i, j - 1);
    }
  }

  /** The index of a size is its binary logarithm, rounded up. */
  lemma IndexIsCeilingOfLog2(n: Uint32, i: nat)
    requires 1 <= n
    ensures Index(n) == i <==> n <= Pow2(i) && (i == 0 || Pow2(i - 1) < n)
  {
    var x := n - 1;
    BitLengthBounds(x);
    var j := BitLength(x);
    if i < j {
      if i < j - 1 {
        Pow2Grows(i, j - 1);
      }
    } else if j < i - 1 {
      Pow2Grows(j, i - 1);
    }
  }

  lemma Pow2Values()
    ensures Pow2(30) == 0x4000_0000 && Pow2(31) == 0x8000_0000
  {
    assert Pow2(10) == 1024 by {
      assert Pow2(5) == 32;
    }
    assert Pow2(20) == 1024 * 1024 by {
      assert Pow2(15) == 32 * 1024;
    }
    assert Pow2(25) == 32 * 1024 * 1024;
    assert Pow2(30) == 1024 * 1024 * 1024;
  }

  /** Sizes a `Uint32` that a pool handles have an index below 32. */
  lemma IndexFits(n: Uint32)
    requires 1 <= n <= MAX_INT32
    ensures Index(n) <= 31 && n <= Pow2(Index(n)) && (Index(n) == 31 ==> n != Pow2(31))
    ensures n != Pow2(Index(n)) ==> 0 < Index(n) && Pow2(Index(n) - 1) < n
  {
    IndexIsCeilingOfLog2(n, Index(n));
    Pow2Values();
    if 31 < Index(n) {
      if 31 < Index(n) - 1 {
        Pow2Grows(31, Index(n) - 1);
      }
    }
  }

  /** A Go slice from the start of a backing array: `len` bytes, and room for `cap`. */
  datatype Slice = NilSlice | Slice(data: array<Byte>, len: nat, cap: nat)

  ghost predicate IsSlice(s: Slice) {
    s.Slice? ==> s.len <= s.cap <= s.data.Length
  }

  type Buckets = seq<multiset<array<Byte>>>

  ghost function AllOf(pools: Buckets): multiset<array<Byte>> {
    if pools == [] then multiset{} else pools[0] + AllOf(pools[1..])
  }

  lemma {:induction false} BucketIsPart(pools: Buckets, idx: nat)
    requires idx < |pools|
    ensures pools[idx] <= AllOf(pools)
  {
    if idx > 0 {
      BucketIsPart(pools[1..], idx - 1);
    }
  }

  lemma {:induction false} BucketChanges(pools: Buckets, idx: nat, bucket: multiset<array<Byte>>)
    requires idx < |pools|
    ensures AllOf(pools[idx := bucket]) == AllOf(pools) - pools[idx] + bucket
  {
    BucketIsPart(pools, idx);
    if idx == 0 {
      assert pools[0 := bucket][1..] == pools[1..];
    } else {
      var rest := pools[1..];
      assert pools[idx := bucket][1..] == rest[idx - 1 := bucket];
      BucketChanges(rest, idx - 1, bucket);
      BucketIsPart(rest, idx - 1);
      assert pools[0] + (AllOf(rest) - pools[idx] + bucket) == pools[0] + AllOf(rest) - pools[idx] + bucket;
    }
  }

  lemma {:induction false} NoneInBuckets(n: nat)
    ensures AllOf(seq(n, _ => multiset{})) == multiset{}
  {
    if n > 0 {
      var pools: Buckets := seq(n, _ => multiset{});
      assert pools[1..] == seq(n - 1, _ => multiset{});
      NoneInBuckets(n - 1);
    }
  }

  lemma {:induction false} InNoBucket(pools: Buckets, a: array<Byte>)
    requires forall i :: 0 <= i < |pools| ==> a !in pools[i]
    ensures a !in AllOf(pools)
  {
    if pools != [] {
      InNoBucket(pools[1..], a);
    }
  }

  /** Pooled arrays are pooled once, and none of them is out. */
  ghost predicate AreApart(pooled: multiset<array<Byte>>, held: set<array<Byte>>) {
    forall a :: a in pooled ==> pooled[a] == 1 && a !in held
  }

  lemma TakenOut(pooled: multiset<array<Byte>>, held: set<array<Byte>>, a: array<Byte>)
    requires AreApart(pooled, held)
    ensures AreApart(pooled - multiset{a}, held + {a}) && (a in pooled ==> a !in held)
  {
  }

  lemma PutIn(pooled: multiset<array<Byte>>, held: set<array<Byte>>, a: array<Byte>)
    requires AreApart(pooled, held)
    ensures AreApart(pooled, held - {a})
    ensures AreApart(pooled + multiset{a}, held - {a}) <==> a !in pooled
  {
    if a in pooled {
      assert (pooled + multiset{a})[a] == 2;
    }
  }

  /** Every array has the room its bucket promises; the last bucket is never used. */
  ghost predicate HaveRoom(pools: Buckets) {
    && |pools| == BUCKETS && pools[31] == multiset{}
    && (forall i, a :: 0 <= i < BUCKETS && a in pools[i] ==> Pow2(i) <= a.Length)
  }

  lemma BucketCount(pools: Buckets)
    requires HaveRoom(pools)
    ensures |pools| == BUCKETS
  {
  }

  lemma StillRoom(pools: Buckets, idx: nat, a: array<Byte>)
    requires HaveRoom(pools) && idx < BUCKETS
    ensures a in pools[idx] ==> Pow2(idx) <= a.Length && HaveRoom(pools[idx := pools[idx] - multiset{a}])
    ensures idx < 31 && Pow2(idx) <= a.Length ==> HaveRoom(pools[idx := pools[idx] + multiset{a}])
  {
    hide Pow2;
  }

  class Pool {
    /** Bucket `i` holds pointers to arrays that are taken to have room for two to the power `i`. */
    var pools: Buckets

    /** The arrays that are out with callers. */
    ghost var held: set<array<Byte>>

    ghost predicate Valid()
      reads this
    {
      HaveRoom(pools)
    }

    /** The arrays in the buckets. */
    ghost function Pooled(): multiset<array<Byte>>
      reads this
    {
      AllOf(pools)
    }

    /** No array is pooled twice, or pooled and out. */
    ghost predicate Apart()
      reads this
    {
      AreApart(Pooled(), held)
    }

    constructor ()
      ensures Valid() && Apart() && held == {} && Pooled() == multiset{}
    {
      pools := seq(BUCKETS, _ => multiset{});
      held := {};
      new;
      NoneInBuckets(BUCKETS);
    }

    /** `sync.Pool.Get` of one bucket: any array it holds, or none. */
    method Take(idx: nat) returns (data: array?<Byte>)
      requires Valid() && idx < BUCKETS
      modifies this`pools
      ensures Valid()
      ensures data == null ==> pools == old(pools)
      ensures data != null ==> data in old(Pooled()) && Pow2(idx) <= data.Length
      ensures data != null ==> Pooled() == old(Pooled()) - multiset{data}
    {
      hide Pow2, AllOf, HaveRoom;
      BucketCount(pools);
      var pooled: bool := *;
      if !pooled || pools[idx] == multiset{} {
        return null;
      }
      var taken :| taken in pools[idx];
      StillRoom(pools, idx, taken);
      BucketIsPart(pools, idx);
      BucketChanges(pools, idx, pools[idx] - multiset{taken});
      pools := pools[idx := pools[idx] - multiset{taken}];
      data := taken;
    }

    /** `sync.Pool.Put` into one bucket. */
    method Give(idx: nat, data: array<Byte>)
      requires Valid() && idx < 31 && Pow2(idx) <= data.Length
      modifies this`pools
      ensures Valid() && Pooled() == old(Pooled()) + multiset{data}
    {
      hide Pow2, AllOf, HaveRoom;
      BucketCount(pools);
      StillRoom(pools, idx, data);
      BucketIsPart(pools, idx);
      BucketChanges(pools, idx, pools[idx] + multiset{data});
      pools := pools[idx := pools[idx] + multiset{data}];
    }

    /** Just `size` bytes, in an array that nobody else holds unless one was put back twice. */
    method Get(size: int) returns (buf: Slice)
      requires Valid()
      modifies this
      ensures Valid() && IsSlice(buf)
      ensures buf == NilSlice <==> size <= 0
      ensures buf.Slice? ==> buf.len == size && held == old(held) + {buf.data}
      ensures buf.Slice? ==> buf.cap == if size <= 0x7FFF_FFFF then Pow2(Index(size)) else size
      ensures buf.Slice? ==> (size <= 0x7FFF_FFFF && buf.data in old(Pooled())) || fresh(buf.data)
      ensures buf.Slice? ==> Pooled() == old(Pooled()) - multiset{buf.data}
      ensures buf == NilSlice ==> held == old(held) && Pooled() == old(Pooled())
      ensures old(Apart()) ==> Apart() && (buf.Slice? ==> buf.data !in old(held))
    {
      hide Pow2, Index, AllOf, AreApart, HaveRoom;
      ghost var pooled0, held0 := Pooled(), held;
      if size <= 0 {
        return NilSlice;
      }
      if size > MAX_INT32 {
        var data := new Byte[size];
        InNoBucket(pools, data);
        if AreApart(pooled0, held0) {
          TakenOut(pooled0, held0, data);
        }
        held := held + {data};
        return Slice(data, size, size);
      }
      var idx := Index(size);
      IndexFits(size);
      var data := Take(idx);
      if data == null {
        data := new Byte[Pow2(idx)];
        InNoBucket(pools, data);
      }
      if AreApart(pooled0, held0) {
        TakenOut(pooled0, held0, data);
      }
      held := held + {data};
      buf := Slice(data, size, Pow2(idx));
    }

    /** Takes a slice back, wherever it comes from; slices that are too large, and none, are dropped. Arrays stay
        apart exactly if this one was not pooled already. */
    method Put(buf: Slice)
      requires Valid() && IsSlice(buf)
      modifies this
      ensures Valid()
      ensures held == old(held) - if buf.Slice? then {buf.data} else {}
      ensures Pooled() == old(Pooled())
        + if buf.Slice? && 1 <= buf.cap <= 0x7FFF_FFFF then multiset{buf.data} else multiset{}
      ensures old(Apart()) ==> (Apart() <==> !(IsKept(buf) && buf.data in old(Pooled())))
    {
      hide Pow2, Index, AllOf, AreApart, HaveRoom;
      if buf.NilSlice? {
        return;
      }
      if AreApart(Pooled(), held) {
        PutIn(Pooled(), held, buf.data);
      }
      held := held - {buf.data};
      var size := buf.cap;
      if size == 0 || size > MAX_INT32 {
        return;
      }
      var idx := Index(size);
      IndexFits(size);
      if size != Pow2(idx) {
        idx := idx - 1;
      }
      Give(idx, buf.data);
    }
  }

  predicate IsKept(s: Slice) {
    s.Slice? && 1 <= s.cap <= MAX_INT32
  }
}
