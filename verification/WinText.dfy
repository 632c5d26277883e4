/** Text on the Windows clipboard (pkg/clipboard/windows/text.go): UTF-8 on this side, NUL-terminated UTF-16 on the
    other. The global memory block is an array. */
module WinText {
  import opened Wrappers
  import opened Machine
  import opened Utf8

  // ---------------------------------------------------------------- UTF-16 (RFC 2781, sections 2.1 and 2.2)

  type Units = seq<Uint16>

  predicate IsHigh(u: Uint16) {
    0xD800 <= u < 0xDC00
  }

  predicate IsLow(u: Uint16) {
    0xDC00 <= u < 0xE000
  }

  /** A pair of surrogates for a character beyond 16 bits, else one unit. */
  function EncodeRune16(r: Scalar): (u: Units)
    ensures 1 <= |u| <= 2
  {
    if r >= 0x1_0000 then [0xD800 + (r - 0x1_0000) / 0x400, 0xDC00 + (r - 0x1_0000) % 0x400] else [r]
  }

  predicate IsPair(u: Units) {
    2 <= |u| && IsHigh(u[0]) && IsLow(u[1])
  }

  /** A pair is one character; a surrogate without its partner counts as U+FFFD. */
  function DecodeRune16(u: Units): (r: (Scalar, nat))
    requires u != []
    ensures 1 <= r.1 <= |u|
  {
    if IsPair(u) then ((u[0] - 0xD800) as int * 0x400 + (u[1] - 0xDC00) + 0x1_0000, 2)
    else if IsHigh(u[0]) || IsLow(u[0]) then (RUNE_ERROR, 1)
    else (u[0], 1)
  }

  function Utf16(rs: seq<Scalar>): Units {
    if rs == [] then [] else EncodeRune16(rs[0]) + Utf16(rs[1..])
  }

  function Runes16(u: Units): seq<Scalar> {
    if u == [] then [] else [DecodeRune16(u).0] + Runes16(u[DecodeRune16(u).1..])
  }

  lemma {:induction false} Runes16OfUtf16(rs: seq<Scalar>)
    ensures Runes16(Utf16(rs)) == rs
  {
    if rs != [] {
      var head, tail := EncodeRune16(rs[0]), Utf16(rs[1..]);
      assert (head + tail)[|head|..] == tail;
      Runes16OfUtf16(rs[1..]);
    }
  }

  /** Every surrogate has its partner. */
  predicate IsWellFormed(u: Units) {
    u == [] || ((IsPair(u) || !(IsHigh(u[0]) || IsLow(u[0]))) && IsWellFormed(u[DecodeRune16(u).1..]))
  }

  lemma {:induction false} Utf16OfRunes16(u: Units)
    ensures IsWellFormed(u) <==> Utf16(Runes16(u)) == u
  {
    if u != [] {
      var n := DecodeRune16(u).1;
      Utf16OfRunes16(u[n..]);
      assert u == u[..n] + u[n..];
    }
  }

  // ---------------------------------------------------------------- the clipboard

  /** What is in front of the first zero. */
  function UntilZero<T(==)>(u: seq<T>, zero: T): seq<T> {
    if u == [] || u[0] == zero then [] else [u[0]] + UntilZero(u[1..], zero)
  }

  lemma {:induction false} UntilZeroIs<T>(u: seq<T>, zero: T)
    ensures var p := UntilZero(u, zero); p <= u && zero !in p && (|p| < |u| ==> u[|p|] == zero)
    ensures zero !in u ==> UntilZero(u, zero) == u
  {
    if u != [] {
      UntilZeroIs(u[1..], zero);
    }
  }

  lemma {:induction false} UntilFirstZero<T>(p: seq<T>, zero: T, rest: seq<T>)
    requires zero !in p
    ensures UntilZero(p + [zero] + rest, zero) == p
  {
    var u := p + [zero] + rest;
    if p != [] {
      assert u[1..] == p[1..] + [zero] + rest;
      UntilFirstZero(p[1..], zero, rest);
    }
  }

  /** The block for a text. */
  function ClipboardOf(text: Bytes): Units {
    Utf16(Runes(text)) + [0]
  }

  /** What `writeText` leaves on the clipboard: nothing for an empty text. */
  function Written(text: Bytes): Option<Units> {
    if text == [] then None else Some(ClipboardOf(text))
  }

  /** What `readText` makes of a block. */
  function TextOf(u: Units): Bytes {
    EncodeRunes(Runes16(UntilZero(u, 0)))
  }

  lemma {:induction false} UntilZeroBehind<T>(a: seq<T>, b: seq<T>, zero: T)
    requires zero !in a
    ensures UntilZero(a + b, zero) == a + UntilZero(b, zero)
  {
    if a == [] {
      assert a + b == b;
    } else {
      assert (a + b)[1..] == a[1..] + b;
      UntilZeroBehind(a[1..], b, zero);
    }
  }

  /** A zero unit is the character zero. */
  lemma {:induction false} ZeroUnit(rs: seq<Scalar>)
    ensures UntilZero(Utf16(rs) + [0], 0) == Utf16(UntilZero(rs, 0))
  {
    if rs == [] {
      assert Utf16(rs) + [0] == [0];
    } else {
      var head, tail := EncodeRune16(rs[0]), Utf16(rs[1..]) + [0];
      assert Utf16(rs) + [0] == head + tail;
      if rs[0] != 0 {
        UntilZeroBehind(head, tail, 0);
        ZeroUnit(rs[1..]);
      }
    }
  }

  /** A zero byte ends any character in front of it, complete or not. */
  lemma RuneBeforeZero(s: Bytes, p: Bytes)
    requires p != [] && p <= s && 0 !in p && (|p| < |s| ==> s[|p|] == 0)
    ensures DecodeRune(s) == DecodeRune(p) && DecodeRune(s).0 != 0
  {
    assert p[0] in p;
  }

  /** Cutting bytes at a zero is cutting their characters at the character zero. */
  lemma {:induction false} RunesUntilZero(s: Bytes)
    ensures UntilZero(Runes(s), 0) == Runes(UntilZero(s, 0))
    decreases |s|
  {
    if s != [] && s[0] != 0 {
      var p := UntilZero(s, 0);
      UntilZeroIs(s, 0);
      RuneBeforeZero(s, p);
      var n := DecodeRune(s).1;
      RunesUntilZero(s[n..]);
      UntilZeroSkips(s, n);
    }
  }

  lemma {:induction false} UntilZeroSkips(u: Bytes, n: nat)
    requires n <= |UntilZero(u, 0)|
    ensures n <= |u| && UntilZero(u[n..], 0) == UntilZero(u, 0)[n..]
  {
    if n > 0 {
      UntilZeroSkips(u[1..], n - 1);
      assert u[1..][n - 1..] == u[n..];
    }
  }

  lemma {:induction false} RepairedHasNoZero(s: Bytes)
    requires 0 !in s
    ensures 0 !in Repaired(s)
    decreases |s|
  {
    if s != [] {
      RepairedHasNoZero(s[DecodeRune(s).1..]);
    }
  }

  /** A text comes back up to its first zero byte, with each byte that is rejected made U+FFFD. */
  lemma ReadAfterWrite(text: Bytes)
    ensures TextOf(ClipboardOf(text)) == Repaired(UntilZero(text, 0))
  {
    ZeroUnit(Runes(text));
    RunesUntilZero(text);
    var p := UntilZero(text, 0);
    Runes16OfUtf16(Runes(p));
    EncodedRunes(p);
  }

  /** A text comes back as it was exactly if it is valid UTF-8 without a zero byte. */
  lemma TextComesBackExactlyWhenValid(text: Bytes)
    ensures TextOf(ClipboardOf(text)) == text <==> IsValid(text) && 0 !in text
  {
    ReadAfterWrite(text);
    UntilZeroIs(text, 0);
    ValidIsNotRepaired(text);
    RepairedHasNoZero(UntilZero(text, 0));
  }

  /** Writing what was read gives the block back exactly if it held well-formed UTF-16, and some of it. */
  lemma WriteAfterRead(u: Units)
    requires 0 !in u
    ensures Written(TextOf(u + [0])) == Some(u + [0]) <==> u != [] && IsWellFormed(u)
  {
    UntilFirstZero(u, 0, []);
    assert u + [0] + [] == u + [0];
    RunesOfEncoded(Runes16(u));
    Utf16OfRunes16(u);
    var v := Utf16(Runes16(u));
    assert (v + [0])[..|v|] == v && (u + [0])[..|u|] == u;
  }

  // ---------------------------------------------------------------- the code

  lemma WriteStep(s: Bytes, i: nat)
    requires i < |s|
    ensures var (r, size) := DecodeRune(s[i..]);
      Utf16(Runes(s[i..])) == EncodeRune16(r) + Utf16(Runes(s[i + size..]))
  {
    var (r, size) := DecodeRune(s[i..]);
    assert s[i..][size..] == s[i + size..];
  }

  lemma ReadStep(u: Units, i: nat)
    requires i < |u|
    ensures var (r, size) := DecodeRune16(u[i..]);
      EncodeRunes(Runes16(u[i..])) == EncodeRune(r) + EncodeRunes(Runes16(u[i + size..]))
  {
    var (r, size) := DecodeRune16(u[i..]);
    assert u[i..][size..] == u[i + size..];
  }

  lemma NothingLeft(s: Bytes)
    requires s == []
    ensures Utf16(Runes(s)) == []
  {
  }

  lemma Ascii(r: Scalar)
    requires r < 128
    ensures EncodeRune(r) == [r]
  {
  }

  /** The first pass of `writeText`: the units the text takes, and one for the zero. */
  method Measure(buf: Bytes) returns (len16: nat)
    ensures len16 == |ClipboardOf(buf)|
  {
    hide DecodeRune, Runes, Utf16;
    ghost var whole := Utf16(Runes(buf));
    len16 := 0;
    var i := 0;
    assert buf[0..] == buf;
    while i < |buf|
      invariant i <= |buf|
      invariant len16 + |Utf16(Runes(buf[i..]))| == |whole|
    {
      WriteStep(buf, i);
      var (r, size) := DecodeRune(buf[i..]);
      i := i + size;
      if r >= 0x1_0000 {
        len16 := len16 + 2;
        continue;
      }
      len16 := len16 + 1;
    }
    NothingLeft(buf[i..]);
    len16 := len16 + 1;
  }

  /** The second pass: it fills the block, all of it and nothing beyond. */
  method Fill(buf: Bytes, dst: array<Uint16>)
    requires dst.Length == |ClipboardOf(buf)|
    modifies dst
    ensures dst[..] == ClipboardOf(buf)
  {
    hide DecodeRune, Runes, Utf16;
    ghost var whole := Utf16(Runes(buf));
    var idx, i := 0, 0;
    assert buf[0..] == buf && whole[0..] == whole;
    while i < |buf|
      invariant i <= |buf| && idx <= |whole|
      invariant whole[idx..] == Utf16(Runes(buf[i..]))
      invariant forall k :: 0 <= k < idx ==> dst[k] == whole[k]
    {
      WriteStep(buf, i);
      var (r, size) := DecodeRune(buf[i..]);
      ghost var left := whole[idx..];
      i := i + size;
      if r >= 0x1_0000 {
        assert left[0] == whole[idx] && left[1] == whole[idx + 1] && left[2..] == whole[idx + 2..];
        dst[idx] := 0xD800 + (r - 0x1_0000) / 0x400;
        dst[idx + 1] := 0xDC00 + (r - 0x1_0000) % 0x400;
        idx := idx + 2;
        continue;
      }
      assert left[0] == whole[idx] && left[1..] == whole[idx + 1..];
      dst[idx] := r;
      idx := idx + 1;
    }
    NothingLeft(buf[i..]);
    dst[idx] := 0;
    assert dst[..] == whole + [0];
  }

  /** An empty text leaves the clipboard empty. */
  method WriteText(buf: Bytes) returns (dst: array?<Uint16>)
    ensures (if dst == null then None else Some(dst[..])) == Written(buf)
    ensures dst != null ==> fresh(dst)
  {
    if |buf| == 0 {
      return null;
    }
    var len16 := Measure(buf);
    dst := new Uint16[len16];
    Fill(buf, dst);
  }

  /** Reads a block that ends somewhere in a zero. */
  method ReadText(u: array<Uint16>) returns (buf: Bytes)
    requires 0 in u[..]
    ensures buf == TextOf(u[..])
  {
    hide UntilZero, Runes16, EncodeRunes, EncodeRune;
    var n := 0;
    ghost var zero :| 0 <= zero < u.Length && u[zero] == 0;
    while u[n] != 0
      invariant n <= zero && 0 !in u[..n]
      decreases zero - n
    {
      assert u[..n + 1] == u[..n] + [u[n]];
      n := n + 1;
    }
    assert u[..] == u[..n] + [0] + u[n + 1..];
    UntilFirstZero(u[..n], 0, u[n + 1..]);
    var s := u[..n];
    buf := [];
    var i := 0;
    assert s[0..] == s;
    while i < |s|
      invariant i <= |s|
      invariant buf + EncodeRunes(Runes16(s[i..])) == EncodeRunes(Runes16(s))
    {
      ReadStep(s, i);
      var r: int := s[i];
      if r < 128 {
        Ascii(r);
        buf := buf + [r];
        i := i + 1;
        continue;
      }
      if 0xD800 <= r < 0xDC00 && i + 1 < |s| && 0xDC00 <= s[i + 1] < 0xE000 {
        r := (r - 0xD800) * 0x400 + (s[i + 1] - 0xDC00) + 0x1_0000;
        i := i + 1;
        buf := buf + EncodeRune(r);
        i := i + 1;
        continue;
      }
      if 0xD800 <= r < 0xE000 {
        r := RUNE_ERROR;
      }
      buf := buf + EncodeRune(r);
      i := i + 1;
    }
    NothingToRead(s[i..]);
  }

  lemma NothingToRead(u: Units)
    requires u == []
    ensures EncodeRunes(Runes16(u)) == []
  {
  }
}
