/** Byte-wise comparison and sorting of byte strings (`bytes.Compare`, `slices.SortFunc`). */
module Order {
  import opened Machine

  /** `bytes.Compare(a, b) <= 0`. */
  predicate LessEq(a: Bytes, b: Bytes) {
    a == [] || (b != [] && (a[0] < b[0] || (a[0] == b[0] && LessEq(a[1..], b[1..]))))
  }

  /** `a` is a prefix of `b`, or has the smaller byte where they first differ. */
  ghost predicate Precedes(a: Bytes, b: Bytes) {
    a <= b || exists k :: 0 <= k < |a| && k < |b| && a[..k] == b[..k] && a[k] < b[k]
  }

  lemma {:induction false} LessEqIsByteOrder(a: Bytes, b: Bytes)
    ensures LessEq(a, b) <==> Precedes(a, b)
  {
    if a != [] && b != [] && a[0] == b[0] {
      LessEqIsByteOrder(a[1..], b[1..]);
      RestPrecedes(a, b);
    } else if a != [] && b != [] && a[0] < b[0] {
      assert a[..0] == b[..0];
    }
  }

  /** A common first byte makes no difference. */
  lemma RestPrecedes(a: Bytes, b: Bytes)
    requires a != [] && b != [] && a[0] == b[0]
    ensures Precedes(a, b) <==> Precedes(a[1..], b[1..])
  {
    assert a == [a[0]] + a[1..] && b == [b[0]] + b[1..];
    forall k: nat | k < |a[1..]| && k < |b[1..]|
      ensures a[1..][..k] == b[1..][..k] <==> a[..k + 1] == b[..k + 1]
    {
      assert a[..k + 1] == [a[0]] + a[1..][..k] && b[..k + 1] == [b[0]] + b[1..][..k];
    }
    if k :| 0 <= k < |a| && k < |b| && a[..k] == b[..k] && a[k] < b[k] {
      assert a[1..][k - 1] == a[k] && b[1..][k - 1] == b[k];
    }
  }

  lemma {:induction false} LessEqTotal(a: Bytes, b: Bytes)
    ensures LessEq(a, b) || LessEq(b, a)
  {
    if a != [] && b != [] && a[0] == b[0] {
      LessEqTotal(a[1..], b[1..]);
    }
  }

  lemma {:induction false} LessEqAntisymmetric(a: Bytes, b: Bytes)
    requires LessEq(a, b) && LessEq(b, a)
    ensures a == b
  {
    if a != [] && b != [] {
      LessEqAntisymmetric(a[1..], b[1..]);
      assert a == [a[0]] + a[1..] && b == [b[0]] + b[1..];
    }
  }

  lemma {:induction false} LessEqTransitive(a: Bytes, b: Bytes, c: Bytes)
    requires LessEq(a, b) && LessEq(b, c)
    ensures LessEq(a, c)
  {
    if a != [] && a[0] == b[0] == c[0] {
      LessEqTransitive(a[1..], b[1..], c[1..]);
    }
  }

  ghost predicate Sorted(parts: seq<Bytes>) {
    forall i, j :: 0 <= i < j < |parts| ==> LessEq(parts[i], parts[j])
  }

  lemma FirstIsLeast(parts: seq<Bytes>, x: Bytes)
    requires Sorted(parts) && x in parts
    ensures LessEq(parts[0], x)
  {
    var i :| 0 <= i < |parts| && parts[i] == x;
    LessEqTotal(x, x);
  }

  lemma RestOfMultiset(parts: seq<Bytes>)
    requires parts != []
    ensures multiset(parts[1..]) == multiset(parts) - multiset{parts[0]}
  {
    assert parts == [parts[0]] + parts[1..];
  }

  /** There is only one way to sort a multiset of byte strings. */
  lemma {:induction false} SortedIsUnique(a: seq<Bytes>, b: seq<Bytes>)
    requires Sorted(a) && Sorted(b) && multiset(a) == multiset(b)
    ensures a == b
  {
    assert |a| == |multiset(a)| == |multiset(b)| == |b|;
    if a != [] {
      assert a[0] in multiset(b) && b[0] in multiset(a);
      FirstIsLeast(a, b[0]);
      FirstIsLeast(b, a[0]);
      LessEqAntisymmetric(a[0], b[0]);
      RestOfMultiset(a);
      RestOfMultiset(b);
      SortedIsUnique(a[1..], b[1..]);
      assert a == [a[0]] + a[1..] && b == [b[0]] + b[1..];
    }
  }

  /** `part` placed into the sorted list `parts`. */
  function Place(part: Bytes, parts: seq<Bytes>): (r: seq<Bytes>)
    ensures multiset(r) == multiset(parts) + multiset{part}
  {
    if parts == [] || LessEq(part, parts[0]) then [part] + parts
    else
      assert parts == [parts[0]] + parts[1..];
      [parts[0]] + Place(part, parts[1..])
  }

  function Sort(parts: seq<Bytes>): (r: seq<Bytes>)
    ensures multiset(r) == multiset(parts)
  {
    if parts == [] then []
    else
      assert parts == [parts[0]] + parts[1..];
      Place(parts[0], Sort(parts[1..]))
  }

  lemma {:induction false} PlaceKeepsSorted(part: Bytes, parts: seq<Bytes>)
    requires Sorted(parts)
    ensures Sorted(Place(part, parts))
  {
    var r := Place(part, parts);
    if parts == [] {
    } else if LessEq(part, parts[0]) {
      forall j | 0 < j < |r| ensures LessEq(r[0], r[j]) {
        if j > 1 {
          LessEqTransitive(part, parts[0], parts[j - 1]);
        }
      }
    } else {
      LessEqTotal(part, parts[0]);
      PlaceKeepsSorted(part, parts[1..]);
      var tail := Place(part, parts[1..]);
      forall j | 0 <= j < |tail| ensures LessEq(parts[0], tail[j]) {
        assert tail[j] in multiset(tail);
        assert tail[j] == part || tail[j] in parts[1..];
      }
    }
  }

  lemma {:induction false} SortIsSorted(parts: seq<Bytes>)
    ensures Sorted(Sort(parts))
  {
    if parts != [] {
      SortIsSorted(parts[1..]);
      PlaceKeepsSorted(parts[0], Sort(parts[1..]));
    }
  }

  /** Sorting forgets the order it was given. */
  lemma SortIgnoresOrder(a: seq<Bytes>, b: seq<Bytes>)
    requires multiset(a) == multiset(b)
    ensures Sort(a) == Sort(b)
  {
    SortIsSorted(a);
    SortIsSorted(b);
    SortedIsUnique(Sort(a), Sort(b));
  }

  /** Each of two neighbours is in its place. */
  ghost predicate InByteOrder(parts: seq<Bytes>) {
    forall i :: 0 < i < |parts| ==> Precedes(parts[i - 1], parts[i])
  }

  lemma {:induction false} NeighboursAreEnough(parts: seq<Bytes>)
    ensures InByteOrder(parts) <==> Sorted(parts)
  {
    hide LessEq, Precedes;
    forall i | 0 < i < |parts| ensures Precedes(parts[i - 1], parts[i]) <==> LessEq(parts[i - 1], parts[i]) {
      LessEqIsByteOrder(parts[i - 1], parts[i]);
    }
    if parts != [] && InByteOrder(parts) {
      var n := |parts| - 1;
      assert InByteOrder(parts[..n]);
      NeighboursAreEnough(parts[..n]);
      forall i | 0 <= i < n ensures LessEq(parts[i], parts[n]) {
        assert parts[..n][i] == parts[i] && parts[..n][n - 1] == parts[n - 1];
        if i < n - 1 {
          LessEqTransitive(parts[i], parts[n - 1], parts[n]);
        }
      }
      forall i, j | 0 <= i < j < |parts| ensures LessEq(parts[i], parts[j]) {
        if j < n {
          assert parts[..n][i] == parts[i] && parts[..n][j] == parts[j];
        }
      }
    }
  }

  /** A list is what sorting gives if and only if it has the same parts and each of two neighbours is a prefix of the
      next or has the smaller byte where they first differ. */
  lemma SortedExactlyWhenInByteOrder(parts: seq<Bytes>, r: seq<Bytes>)
    ensures r == Sort(parts) <==> multiset(r) == multiset(parts) && InByteOrder(r)
  {
    hide LessEq, Precedes;
    SortIsSorted(parts);
    NeighboursAreEnough(Sort(parts));
    NeighboursAreEnough(r);
    if multiset(r) == multiset(parts) && InByteOrder(r) {
      SortedIsUnique(r, Sort(parts));
    }
  }
}
