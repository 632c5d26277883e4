/** UTF-8 (sections 3 and 4 of RFC 3629), as `unicode/utf8` reads and writes it. */
module Utf8 {
  import opened Machine

  /** A Unicode scalar value: what both encodings can encode. */
  type Scalar = r: int | 0 <= r < 0xD800 || 0xE000 <= r < 0x11_0000

  const RUNE_ERROR: Scalar := 0xFFFD

  predicate IsTail(b: Byte) {
    0x80 <= b < 0xC0
  }

  /** The bytes a second byte may be, after the first. */
  function SecondLow(b: Byte): int {
    if b == 0xE0 then 0xA0 else if b == 0xF0 then 0x90 else 0x80
  }

  function SecondHigh(b: Byte): int {
    if b == 0xED then 0x9F else if b == 0xF4 then 0x8F else 0xBF
  }

  /** The length that a first byte announces, 0 if it can not be one. */
  function Announced(b: Byte): nat {
    if b < 0x80 then 1 else if b < 0xC2 then 0 else if b < 0xE0 then 2 else if b < 0xF0 then 3
    else if b < 0xF5 then 4 else 0
  }

  /** A character at the front of `s`, or a byte that is none. */
  predicate Accepted(s: Bytes)
    requires s != []
  {
    var n := Announced(s[0]);
    1 <= n <= |s|
    && (2 <= n ==> SecondLow(s[0]) <= s[1] <= SecondHigh(s[0]))
    && (3 <= n ==> IsTail(s[2]))
    && (4 <= n ==> IsTail(s[3]))
  }

  /** `utf8.DecodeRune`: a byte that is rejected counts as U+FFFD, of length 1. */
  function DecodeRune(s: Bytes): (r: (Scalar, nat))
    requires s != []
    ensures 1 <= r.1 <= 4 && r.1 <= |s|
  {
    if !Accepted(s) then (RUNE_ERROR, 1)
    else
      var n, b: int := Announced(s[0]), s[0];
      if n == 1 then (b, 1)
      else
        var c: int := s[1];
        if n == 2 then ((b - 0xC0) * 0x40 + (c - 0x80), 2)
        else
          var d: int := s[2];
          if n == 3 then ((b - 0xE0) * 0x1000 + (c - 0x80) * 0x40 + (d - 0x80), 3)
          else
            var e: int := s[3];
            ((b - 0xF0) * 0x4_0000 + (c - 0x80) * 0x1000 + (d - 0x80) * 0x40 + (e - 0x80), 4)
  }

  /** `utf8.AppendRune` on nothing. */
  function EncodeRune(r: Scalar): (s: Bytes)
    ensures s != []
  {
    if r < 0x80 then [r]
    else if r < 0x800 then [0xC0 + r / 0x40, 0x80 + r % 0x40]
    else if r < 0x1_0000 then [0xE0 + r / 0x1000, 0x80 + r / 0x40 % 0x40, 0x80 + r % 0x40]
    else [0xF0 + r / 0x4_0000, 0x80 + r / 0x1000 % 0x40, 0x80 + r / 0x40 % 0x40, 0x80 + r % 0x40]
  }

  function Runes(s: Bytes): seq<Scalar> {
    if s == [] then [] else [DecodeRune(s).0] + Runes(s[DecodeRune(s).1..])
  }

  function EncodeRunes(rs: seq<Scalar>): Bytes {
    if rs == [] then [] else EncodeRune(rs[0]) + EncodeRunes(rs[1..])
  }

  lemma Shifts(r: nat)
    ensures r / 0x1000 == r / 0x40 / 0x40 && r / 0x4_0000 == r / 0x40 / 0x40 / 0x40
  {
  }

  lemma SixBits(x: nat, y: nat)
    requires y < 0x40
    ensures (x * 0x40 + y) / 0x40 == x && (x * 0x40 + y) % 0x40 == y
  {
  }

  lemma SixBitsApart(r: nat)
    ensures r == r / 0x40 * 0x40 + r % 0x40
  {
  }

  /** What is encoded is accepted and decoded again, whatever follows. */
  lemma DecodeOfEncode(r: Scalar, rest: Bytes)
    ensures Accepted(EncodeRune(r) + rest) && DecodeRune(EncodeRune(r) + rest) == (r, |EncodeRune(r)|)
  {
    Shifts(r);
    SixBitsApart(r);
    SixBitsApart(r / 0x40);
    SixBitsApart(r / 0x40 / 0x40);
  }

  /** What is accepted is what its character is encoded as. */
  lemma EncodeOfDecode(s: Bytes)
    requires s != [] && Accepted(s)
    ensures EncodeRune(DecodeRune(s).0) == s[..DecodeRune(s).1]
  {
    var n, b: int := Announced(s[0]), s[0];
    Shifts(DecodeRune(s).0);
    if n == 2 {
      SixBits(b - 0xC0, s[1] - 0x80);
    } else if n == 3 {
      var x: int, y: int := b - 0xE0, s[1] - 0x80;
      SixBits(x, y);
      SixBits(x * 0x40 + y, s[2] - 0x80);
    } else if n == 4 {
      var x: int, y: int, z: int := b - 0xF0, s[1] - 0x80, s[2] - 0x80;
      SixBits(x, y);
      SixBits(x * 0x40 + y, z);
      SixBits((x * 0x40 + y) * 0x40 + z, s[3] - 0x80);
    }
  }

  lemma {:induction false} RunesOfEncoded(rs: seq<Scalar>)
    ensures Runes(EncodeRunes(rs)) == rs
  {
    if rs != [] {
      var head, tail := EncodeRune(rs[0]), EncodeRunes(rs[1..]);
      DecodeOfEncode(rs[0], tail);
      assert (head + tail)[|head|..] == tail;
      RunesOfEncoded(rs[1..]);
    }
  }

  /** Valid UTF-8: characters and nothing else. */
  predicate IsValid(s: Bytes) {
    s == [] || (Accepted(s) && IsValid(s[DecodeRune(s).1..]))
  }

  /** `s` with each byte that is rejected made U+FFFD. */
  function Repaired(s: Bytes): Bytes {
    if s == [] then []
    else if Accepted(s) then s[..DecodeRune(s).1] + Repaired(s[DecodeRune(s).1..])
    else [0xEF, 0xBF, 0xBD] + Repaired(s[1..])
  }

  lemma {:induction false} EncodedRunes(s: Bytes)
    ensures EncodeRunes(Runes(s)) == Repaired(s)
  {
    if s != [] {
      EncodedRunes(s[DecodeRune(s).1..]);
      if Accepted(s) {
        EncodeOfDecode(s);
      }
    }
  }

  predicate ReplacementInFront(s: Bytes) {
    3 <= |s| && s[0] == 0xEF && s[1] == 0xBF && s[2] == 0xBD
  }

  /** Valid is exactly what repairing does not change, */
  lemma {:induction false} ValidIsNotRepaired(s: Bytes)
    ensures IsValid(s) <==> Repaired(s) == s
  {
    if s != [] {
      var n := DecodeRune(s).1;
      if Accepted(s) {
        assert s == s[..n] + s[n..];
        ValidIsNotRepaired(s[n..]);
      } else {
        assert !ReplacementInFront(s);
      }
    }
  }

  /** and exactly what characters are encoded as. */
  lemma ValidIsEncoded(s: Bytes)
    ensures IsValid(s) <==> exists rs :: s == EncodeRunes(rs)
  {
    EncodedRunes(s);
    ValidIsNotRepaired(s);
    if rs :| s == EncodeRunes(rs) {
      RunesOfEncoded(rs);
    }
  }
}
