/** Splitting, joining and trimming byte strings, as `bytes.Split`, `bytes.Join` and `bytes.TrimSpace` do. */
module Lines {
  import opened Machine
  import opened Utf8

  const NEWLINE: Byte := 10
  const RETURN: Byte := 13

  function Join(parts: seq<Bytes>, sep: Bytes): Bytes {
    if parts == [] then []
    else if |parts| == 1 then parts[0]
    else parts[0] + sep + Join(parts[1..], sep)
  }

  /** The pieces between newlines; an empty string is one empty piece. */
  function Split(s: Bytes): (r: seq<Bytes>)
    ensures r != []
  {
    if s == [] then [[]]
    else
      var rest := Split(s[1..]);
      if s[0] == NEWLINE then [[]] + rest else [[s[0]] + rest[0]] + rest[1..]
  }

  lemma {:induction false} SplitAtNewline(a: Bytes, b: Bytes)
    requires NEWLINE !in a
    ensures Split(a + [NEWLINE] + b) == [a] + Split(b)
  {
    var s := a + [NEWLINE] + b;
    if a == [] {
      assert s[1..] == b;
    } else {
      assert s[1..] == a[1..] + [NEWLINE] + b;
      SplitAtNewline(a[1..], b);
      assert [a[0]] + a[1..] == a;
    }
  }

  lemma {:induction false} SplitOneLine(a: Bytes)
    requires NEWLINE !in a
    ensures Split(a) == [a]
  {
    if a != [] {
      SplitOneLine(a[1..]);
      assert [a[0]] + a[1..] == a;
    }
  }

  lemma {:induction false} PiecesHaveNoNewline(s: Bytes)
    ensures forall piece <- Split(s) :: NEWLINE !in piece
  {
    if s != [] {
      PiecesHaveNoNewline(s[1..]);
      var rest := Split(s[1..]);
      assert rest[0] in rest && forall piece <- rest[1..] :: piece in rest;
    }
  }

  /** Splitting what was joined gives the pieces back, unless there were none. */
  lemma {:induction false} SplitOfJoin(parts: seq<Bytes>)
    requires parts != [] && forall part <- parts :: NEWLINE !in part
    ensures Split(Join(parts, [NEWLINE])) == parts
  {
    if |parts| == 1 {
      SplitOneLine(parts[0]);
    } else {
      SplitOfJoin(parts[1..]);
      SplitAtNewline(parts[0], Join(parts[1..], [NEWLINE]));
    }
  }

  // ---------------------------------------------------------------- trimming

  /** The characters that `unicode.IsSpace` is true of. */
  predicate IsSpace(r: Scalar) {
    || 9 <= r <= 13 || r == 0x20 || r == 0x85 || r == 0xA0
    || r == 0x1680 || 0x2000 <= r <= 0x200A || 0x2028 <= r <= 0x2029 || r == 0x202F || r == 0x205F || r == 0x3000
  }

  /** The length of the space at the front, 0 if there is none. */
  function FrontSpace(s: Bytes): nat {
    if s != [] && IsSpace(DecodeRune(s).0) then DecodeRune(s).1 else 0
  }

  /** The encoding of one space. */
  predicate IsSpaceChar(c: Bytes) {
    c != [] && FrontSpace(c) == |c|
  }

  /** The length of the space at the end, 0 if there is none. */
  function BackSpace(s: Bytes): nat {
    if 1 <= |s| && IsSpaceChar(s[|s| - 1..]) then 1
    else if 2 <= |s| && IsSpaceChar(s[|s| - 2..]) then 2
    else if 3 <= |s| && IsSpaceChar(s[|s| - 3..]) then 3
    else 0
  }

  /** Spaces and nothing else. */
  predicate IsBlank(s: Bytes) {
    s == [] || (FrontSpace(s) > 0 && IsBlank(s[FrontSpace(s)..]))
  }

  /** No space at either edge. */
  predicate Trimmed(s: Bytes) {
    FrontSpace(s) == 0 && BackSpace(s) == 0
  }

  function TrimLeft(s: Bytes): Bytes {
    if FrontSpace(s) > 0 then TrimLeft(s[FrontSpace(s)..]) else s
  }

  function TrimRight(s: Bytes): Bytes {
    if BackSpace(s) > 0 then TrimRight(s[..|s| - BackSpace(s)]) else s
  }

  /** `bytes.TrimSpace` */
  function Trim(s: Bytes): Bytes {
    TrimRight(TrimLeft(s))
  }

  /** The first bytes of encoded spaces. */
  predicate StartsSpace(b: Byte) {
    9 <= b <= 13 || b == 32 || b == 0xC2 || 0xE1 <= b <= 0xE3
  }

  /** What a space is made of: a first byte and up to two that can not be first. */
  lemma SpaceBytes(s: Bytes)
    requires FrontSpace(s) > 0
    ensures StartsSpace(s[0]) && FrontSpace(s) <= 3
    ensures forall i :: 1 <= i < FrontSpace(s) ==> IsTail(s[i])
  {
  }

  /** The byte strings that are space: 6 of one byte, 2 of two and 17 of three. */
  lemma SpacesAre(s: Bytes)
    ensures FrontSpace(s) == 1 <==> s != [] && (9 <= s[0] <= 13 || s[0] == 0x20)
    ensures FrontSpace(s) == 2 <==> 2 <= |s| && s[0] == 0xC2 && (s[1] == 0x85 || s[1] == 0xA0)
    ensures FrontSpace(s) == 3
       <==> (3 <= |s|
             && ((s[0] == 0xE1 && s[1] == 0x9A && s[2] == 0x80)
                 || (s[0] == 0xE2 && s[1] == 0x80
                     && (0x80 <= s[2] <= 0x8A || s[2] == 0xA8 || s[2] == 0xA9 || s[2] == 0xAF))
                 || (s[0] == 0xE2 && s[1] == 0x81 && s[2] == 0x9F)
                 || (s[0] == 0xE3 && s[1] == 0x80 && s[2] == 0x80)))
  {
  }

  /** Whether there is a space in front does not depend on what follows it. */
  lemma SpaceAlone(s: Bytes, n: nat)
    requires FrontSpace(s) <= n <= |s|
    ensures FrontSpace(s[..n]) == FrontSpace(s)
  {
    if FrontSpace(s) > 0 {
      EncodeOfDecode(s);
      var r, k := DecodeRune(s).0, DecodeRune(s).1;
      DecodeOfEncode(r, s[..n][k..]);
      assert s[..n] == s[..k] + s[..n][k..];
    } else {
      assert s == s[..n] + s[n..];
      if FrontSpace(s[..n]) > 0 {
        SpaceBefore(s[..n], s[n..]);
      }
    }
  }

  lemma SpaceBefore(s: Bytes, rest: Bytes)
    requires FrontSpace(s) > 0
    ensures FrontSpace(s + rest) == FrontSpace(s)
  {
    EncodeOfDecode(s);
    var r, k := DecodeRune(s).0, DecodeRune(s).1;
    DecodeOfEncode(r, s[k..] + rest);
    assert s + rest == s[..k] + (s[k..] + rest);
  }

  lemma {:induction false} BlankJoined(a: Bytes, b: Bytes)
    requires IsBlank(a) && IsBlank(b)
    ensures IsBlank(a + b)
  {
    hide FrontSpace;
    if a == [] {
      assert a + b == b;
    } else {
      SpaceBefore(a, b);
      var n := FrontSpace(a);
      FrontSpaceWithin(a);
      assert (a + b)[n..] == a[n..] + b;
      BlankJoined(a[n..], b);
    }
  }

  lemma FrontSpaceWithin(s: Bytes)
    ensures FrontSpace(s) <= |s|
  {
  }

  lemma SpaceIsBlank(c: Bytes)
    requires IsSpaceChar(c)
    ensures IsBlank(c)
  {
    hide FrontSpace;
    assert c[FrontSpace(c)..] == [];
  }

  lemma {:induction false} TrimLeftCuts(s: Bytes) returns (k: nat)
    ensures k <= |s| && TrimLeft(s) == s[k..] && FrontSpace(s[k..]) == 0 && IsBlank(s[..k])
  {
    hide FrontSpace;
    var n := FrontSpace(s);
    FrontSpaceWithin(s);
    if n > 0 {
      k := TrimLeftCuts(s[n..]);
      assert s[n..][k..] == s[n + k..] && s[..n + k][n..] == s[n..][..k];
      SpaceAlone(s, n + k);
      k := n + k;
    } else {
      k := 0;
    }
  }

  lemma BackSpaceIsSpace(s: Bytes)
    ensures BackSpace(s) <= |s|
    ensures BackSpace(s) > 0 ==> IsSpaceChar(s[|s| - BackSpace(s)..])
  {
    hide IsSpaceChar;
  }

  lemma NoBackSpace(s: Bytes, n: nat)
    requires BackSpace(s) == 0 && 1 <= n <= 3 && n <= |s|
    ensures !IsSpaceChar(s[|s| - n..])
  {
    hide IsSpaceChar;
  }

  lemma {:induction false} TrimRightCuts(s: Bytes) returns (k: nat)
    ensures k <= |s| && TrimRight(s) == s[..k] && BackSpace(s[..k]) == 0 && IsBlank(s[k..])
  {
    hide FrontSpace, BackSpace, IsBlank, IsSpaceChar;
    BackSpaceIsSpace(s);
    var n := BackSpace(s);
    if n > 0 {
      var m := |s| - n;
      k := TrimRightCuts(s[..m]);
      assert s[..m][..k] == s[..k] && s[k..] == s[..m][k..] + s[m..];
      SpaceIsBlank(s[m..]);
      BlankJoined(s[..m][k..], s[m..]);
    } else {
      k := |s|;
      assert s[..k] == s && s[k..] == [];
      NothingIsBlank();
    }
  }

  lemma NothingIsBlank()
    ensures IsBlank([])
  {
  }

  /** Trimming cuts off the spaces at the edges, all of them and nothing else. */
  lemma TrimCuts(s: Bytes) returns (i: nat, j: nat)
    ensures i <= j <= |s| && Trim(s) == s[i..j] && Trimmed(s[i..j])
    ensures IsBlank(s[..i]) && IsBlank(s[j..])
  {
    hide FrontSpace, BackSpace, IsBlank;
    i := TrimLeftCuts(s);
    var n := TrimRightCuts(s[i..]);
    j := i + n;
    SpaceAlone(s[i..], n);
    assert s[i..][..n] == s[i..j] && s[i..][n..] == s[j..];
  }

  /** Nothing that can not begin a space makes one at the end. */
  lemma NoSpaceAcross(a: Bytes, b: Bytes)
    requires b != [] && BackSpace(b) == 0 && forall x <- a :: !StartsSpace(x)
    ensures BackSpace(a + b) == 0
  {
    hide IsSpaceChar;
    NoSpaceOfLength(a, b, 1);
    NoSpaceOfLength(a, b, 2);
    NoSpaceOfLength(a, b, 3);
  }

  lemma NoSpaceOfLength(a: Bytes, b: Bytes, n: nat)
    requires b != [] && BackSpace(b) == 0 && forall x <- a :: !StartsSpace(x)
    requires 1 <= n <= 3
    ensures n <= |a + b| ==> !IsSpaceChar((a + b)[|a + b| - n..])
  {
    hide FrontSpace, StartsSpace, BackSpace;
    var s := a + b;
    if n <= |b| {
      assert s[|s| - n..] == b[|b| - n..];
      NoBackSpace(b, n);
    } else if n <= |s| {
      var c := s[|s| - n..];
      assert c[0] == a[|s| - n];
      if FrontSpace(c) > 0 {
        SpaceBytes(c);
      }
    }
  }

  lemma ReturnIsSpace(s: Bytes)
    ensures IsSpaceChar([RETURN]) && BackSpace(s + [RETURN]) == 1
    ensures s != [] && FrontSpace(s) == 0 ==> FrontSpace(s + [RETURN]) == 0
  {
    var t := s + [RETURN];
    assert t[|t| - 1..] == [RETURN] && t[..|s|] == s;
    if s != [] && FrontSpace(t) > 0 {
      SpaceBytes(t);
      SpaceAlone(t, |s|);
    }
  }

  lemma TrimOfTrimmed(s: Bytes)
    requires Trimmed(s)
    ensures Trim(s) == s && Trim(s + [RETURN]) == s
  {
    hide FrontSpace, BackSpace;
    ReturnIsSpace(s);
    var t := s + [RETURN];
    assert t[..|t| - 1] == s;
    if s == [] {
      assert t[1..] == [];
      ReturnIsFront();
      NothingToTrim();
    }
  }

  lemma ReturnIsFront()
    ensures FrontSpace([RETURN]) == 1
  {
  }

  lemma NothingToTrim()
    ensures FrontSpace([]) == BackSpace([]) == 0
  {
  }
}
