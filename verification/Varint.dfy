/** Base 128 varints, as the Protocol Buffers encoding specification lays them out (section "Base 128 Varints"),
    and the loops that write and read them. */
module Varint {
  import opened Wrappers
  import opened Machine

  function VarintOf(v: Uint64): (r: Bytes)
    ensures |r| == SizeOfVarint(v)
  {
    if v < 128 then [v] else [v % 128 + 128] + VarintOf(v / 128)
  }

  /** `protohelpers.SizeOfVarint`: the number of 7-bit groups of `v`. */
  function SizeOfVarint(v: Uint64): (n: nat)
    ensures 1 <= n
  {
    if v < 128 then 1 else 1 + SizeOfVarint(v / 128)
  }

  /** Reads a varint off the front of `s` when `k` of its bytes are already read: the value of the rest, unbounded,
      and its length. Ten bytes are the most it may have. */
  function ReadVarint(s: Bytes, k: nat): (r: Option<(nat, nat)>)
    ensures r.Some? ==> 1 <= r.value.1 <= |s| && r.value.1 + k <= 10
    decreases |s|
  {
    if 10 <= k || s == [] then None
    else if s[0] < 128 then Some((s[0], 1))
    else match ReadVarint(s[1..], k + 1)
      case None => None
      case Some((raw, n)) => Some((s[0] - 128 + 128 * raw, n + 1))
  }

  function Pow128(k: nat): nat {
    if k == 0 then 1 else 128 * Pow128(k - 1)
  }

  lemma {:induction false} ReadBack(v: Uint64, rest: Bytes, k: nat)
    requires k < 10 && v < Pow128(10 - k)
    ensures ReadVarint(VarintOf(v) + rest, k) == Some((v, SizeOfVarint(v)))
    decreases 10 - k
  {
    var s := VarintOf(v) + rest;
    if 128 <= v {
      assert s[1..] == VarintOf(v / 128) + rest;
      ReadBack(v / 128, rest, k + 1);
    }
  }

  /** What is written is read back, whatever follows it. */
  lemma VarintRoundTrip(v: Uint64, rest: Bytes)
    ensures ReadVarint(VarintOf(v) + rest, 0) == Some((v, |VarintOf(v)|))
  {
    assert Pow128(10) == 128 * 128 * 128 * 128 * 128 * 128 * 128 * 128 * 128 * 128 by {
      assert Pow128(5) == 128 * 128 * 128 * 128 * 128;
    }
    ReadBack(v, rest, 0);
  }

  lemma VarintIsShort(v: Uint64)
    ensures SizeOfVarint(v) <= 10
  {
    VarintRoundTrip(v, []);
  }

  /** A varint ends where it ends: what follows does not matter. */
  lemma {:induction false} ReadIgnoresRest(s: Bytes, rest: Bytes, k: nat)
    requires ReadVarint(s, k).Some?
    ensures ReadVarint(s + rest, k) == ReadVarint(s, k)
    decreases |s|
  {
    if 128 <= s[0] {
      assert (s + rest)[1..] == s[1..] + rest;
      ReadIgnoresRest(s[1..], rest, k + 1);
    }
  }

  lemma {:induction false} ReadOwnBytes(s: Bytes, k: nat, n: nat)
    requires ReadVarint(s, k).Some? && ReadVarint(s, k).value.1 <= n <= |s|
    ensures ReadVarint(s[..n], k) == ReadVarint(s, k)
    decreases |s|
  {
    if 128 <= s[0] {
      assert s[..n][1..] == s[1..][..n - 1];
      ReadOwnBytes(s[1..], k + 1, n - 1);
    }
  }

  /** No strict prefix of a varint is one. */
  lemma {:induction false} VarintPrefixFails(s: Bytes, k: nat, cut: nat)
    requires ReadVarint(s, k).Some? && cut < ReadVarint(s, k).value.1
    ensures ReadVarint(s[..cut], k).None?
    decreases |s|
  {
    if 0 < cut {
      assert s[..cut][1..] == s[1..][..cut - 1];
      VarintPrefixFails(s[1..], k + 1, cut - 1);
    }
  }

  lemma CellWritten(s: Bytes, i: nat, b: Byte, start: Bytes, offset: nat)
    requires i < offset <= |s| && s[..i] == start
    ensures s[i := b][..i + 1] == start + [b] && s[i := b][offset..] == s[offset..]
  {
  }

  lemma CellsWritten(s: Bytes, offset: nat, before: Bytes, body: Bytes, after: Bytes)
    requires offset <= |s| && s[..offset] == before + body && s[offset..] == after
    ensures |before| <= |s| && s[..|before|] == before && s[|before|..] == body + after
  {
    assert s == (before + body) + after;
  }

  /** Writes `v` so that it ends before `offset`, and returns where it starts. */
  method EncodeVarint(data: array<Byte>, offset: nat, v: Uint64) returns (base: nat)
    requires SizeOfVarint(v) <= offset <= data.Length
    modifies data
    ensures base == offset - SizeOfVarint(v)
    ensures data[..base] == old(data[..base])
    ensures data[base..] == VarintOf(v) + old(data[offset..])
  {
    hide VarintOf, SizeOfVarint;
    base := offset - SizeOfVarint(v);
    var i, rest := base, v;
    ghost var head: Bytes := [];
    ghost var before, after := data[..][..base], data[..][offset..];
    while rest >= 128
      invariant base <= i && i + SizeOfVarint(rest) == offset
      invariant head + VarintOf(rest) == VarintOf(v)
      invariant data[..][..i] == before + head && data[..][offset..] == after
      decreases rest
    {
      VarintUnfolds(rest);
      ghost var s, b := data[..], rest % 128 + 128;
      assert head + VarintOf(rest) == (head + [b]) + VarintOf(rest / 128);
      data[i] := rest % 128 + 128;
      assert data[..] == s[i := b];
      CellWritten(s, i, b, before + head, offset);
      assert (before + head) + [b] == before + (head + [b]);
      head := head + [b];
      rest := rest / 128;
      i := i + 1;
    }
    VarintUnfolds(rest);
    ghost var s := data[..];
    data[i] := rest;
    assert data[..] == s[i := rest];
    CellWritten(s, i, rest, before + head, offset);
    assert (before + head) + [rest] == before + (head + [rest]);
    CellsWritten(data[..], offset, before, head + [rest], after);
  }

  lemma VarintUnfolds(v: Uint64)
    ensures VarintOf(v) == if v < 128 then [v] else [v % 128 + 128] + VarintOf(v / 128)
    ensures SizeOfVarint(v) == if v < 128 then 1 else 1 + SizeOfVarint(v / 128)
  {
  }

  /** A varint whose first `n` bytes are worth `raw` and whose rest is read as `tail`. */
  ghost function Continued(tail: Option<(nat, nat)>, raw: nat, scale: nat, n: nat): Option<(nat, nat)> {
    match tail
    case None => None
    case Some((r, m)) => Some((raw + scale * r, n + m))
  }

  /** `x << shift` where `scale` is two to that power. */
  function Shifted(x: nat, scale: nat): nat {
    x * scale
  }

  lemma ContinuedStarts(whole: Option<(nat, nat)>, wide: bool)
    ensures Continued(whole, 0, 1, 0) == whole && Truncated(0, wide) == 0
  {
  }

  lemma ContinuedStep(s: Bytes, k: nat, raw: nat, scale: nat, n: nat)
    requires k < 10 && s != [] && 128 <= s[0]
    ensures Continued(ReadVarint(s, k), raw, scale, n)
         == Continued(ReadVarint(s[1..], k + 1), raw + Shifted(s[0] - 128, scale), scale * 128, n + 1)
  {
    match ReadVarint(s[1..], k + 1)
    case None =>
    case Some((r, m)) =>
      assert scale * (s[0] - 128 + 128 * r) == scale * (s[0] - 128) + (scale * 128) * r;
  }

  lemma ContinuedEnds(s: Bytes, k: nat, raw: nat, scale: nat, n: nat)
    ensures 10 <= k || s == [] ==> Continued(ReadVarint(s, k), raw, scale, n) == None
    ensures k < 10 && s != [] && s[0] < 128 ==>
      Continued(ReadVarint(s, k), raw, scale, n) == Some((raw + Shifted(s[0], scale), n + 1))
  {
  }

  /** The low 32 or 64 bits of `x`. */
  function Truncated(x: nat, wide: bool): nat {
    if wide then x % TWO64 else x % TWO32
  }

  lemma TruncatedAdd(a: nat, b: nat, wide: bool)
    ensures Truncated(Truncated(a, wide) + b, wide) == Truncated(a + b, wide)
  {
  }

  /** The shift-and-or loop in an integer of 64 bits, or of 32: the bits beyond it are lost.
      The groups of a varint do not overlap, so or-ing them in is adding them up. */
  method DecodeVarint(data: Bytes, index: nat, wide: bool) returns (value: Option<nat>, next: nat)
    requires index <= |data|
    ensures match ReadVarint(data[index..], 0)
      case None => value == None
      case Some((raw, n)) => value == Some(Truncated(raw, wide)) && next == index + n
    ensures value.Some? ==> index < next <= |data|
  {
    hide ReadVarint, Continued, Shifted, Truncated;
    var acc: nat, shift: nat, scale: nat := 0, 0, 1;
    next := index;
    ghost var raw: nat, tail, k: nat := 0, data[index..], 0;
    ghost var whole := ReadVarint(tail, 0);
    ContinuedStarts(whole, wide);
    while true
      invariant next == index + k <= |data| && shift == 7 * k && tail == data[next..]
      invariant acc == Truncated(raw, wide)
      invariant whole == Continued(ReadVarint(tail, k), raw, scale, k)
      decreases |data| - next
    {
      ContinuedEnds(tail, k, raw, scale, k);
      if shift >= 64 {
        return None, next;
      }
      if next >= |data| {
        return None, next;
      }
      var b := data[next];
      next := next + 1;
      TruncatedAdd(raw, Shifted(b % 128, scale), wide);
      acc := Truncated(acc + Shifted(b % 128, scale), wide);
      if b < 128 {
        return Some(acc), next;
      }
      ContinuedStep(tail, k, raw, scale, k);
      assert b % 128 == b - 128;
      raw, tail, k := raw + Shifted(b % 128, scale), tail[1..], k + 1;
      shift := shift + 7;
      scale := scale * 128;
    }
  }
}
