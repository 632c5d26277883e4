/** The field loop that every generated `UnmarshalVT` is an instance of, and the bytes that fields are written as. */
module Wire {
  import opened Wrappers
  import opened Machine
  import opened Varint

  /** What `protohelpers.Skip` promises: on success it gets past at least the tag, and its answer depends on
      the skipped bytes only. It may answer with more bytes than there are. */
  ghost predicate IsSkip(skip: Bytes -> Option<nat>) {
    && (forall s: Bytes :: skip(s).Some? ==> ReadVarint(s, 0).Some? && ReadVarint(s, 0).value.1 <= skip(s).value)
    && (forall s: Bytes, t: Bytes :: SkipsWithin(skip, s) && SameFront(s, t, skip(s).value) ==> skip(t) == skip(s))
  }

  ghost predicate SkipsWithin(skip: Bytes -> Option<nat>, s: Bytes) {
    skip(s).Some? && skip(s).value <= |s|
  }

  ghost predicate SameFront(s: Bytes, t: Bytes, k: nat) {
    k <= |s| && k <= |t| && s[..k] == t[..k]
  }

  function NoSkip(s: Bytes): Option<nat> {
    None
  }

  type Skipper = skip: Bytes -> Option<nat> | IsSkip(skip) witness NoSkip

  datatype Kind = Number | Delimited

  /** A field off the wire: a varint, the bytes of a delimited field, or the whole bytes of an unknown one. */
  datatype Field = NumberField(num: int, raw: nat) | BytesField(num: int, bytes: Bytes) | UnknownField(bytes: Bytes)

  type Schema = map<int, Kind>

  /** The number and wire type in a tag varint: `int32(wire >> 3)` and `wire & 7`. */
  function TagNumber(raw: nat): Int32 {
    ToInt32(raw % TWO64 / 8)
  }

  function TagType(raw: nat): nat {
    raw % TWO64 % 8
  }

  /** The field at the front of `s` and its length, or none if it is malformed. */
  function NextField(skip: Skipper, schema: Schema, s: Bytes): (r: Option<(Field, nat)>)
    ensures r.Some? ==> 1 <= r.value.1 <= |s|
  {
    match ReadVarint(s, 0)
    case None => None
    case Some((tag, n)) =>
      if TagType(tag) == 4 || TagNumber(tag) <= 0 then None
      else if TagNumber(tag) !in schema then SkippedField(skip, s)
      else if schema[TagNumber(tag)] == Number then
        if TagType(tag) != 0 then None else NumberAt(s, n, TagNumber(tag))
      else
        if TagType(tag) != 2 then None else BytesAt(s, n, TagNumber(tag))
  }

  function SkippedField(skip: Skipper, s: Bytes): Option<(Field, nat)> {
    match skip(s)
    case None => None
    case Some(k) => if |s| < k then None else Some((UnknownField(s[..k]), k))
  }

  function NumberAt(s: Bytes, n: nat, num: int): Option<(Field, nat)>
    requires n <= |s|
  {
    match ReadVarint(s[n..], 0)
    case None => None
    case Some((raw, m)) => Some((NumberField(num, raw), n + m))
  }

  /** A length is an `int`: it may come out negative, and it may lead out of the input. */
  function BytesAt(s: Bytes, n: nat, num: int): Option<(Field, nat)>
    requires n <= |s|
  {
    match ReadVarint(s[n..], 0)
    case None => None
    case Some((raw, m)) =>
      var len := ToInt64(raw);
      if len < 0 || |s| < n + m + len then None
      else Some((BytesField(num, s[n + m..n + m + len]), n + m + len))
  }

  /** A message type as the field loop sees it. `merge` takes in a known field, `keep` appends unknown bytes. */
  datatype Format<!M> = Format(schema: Schema, merge: (M, Field) -> Option<M>, keep: (M, Bytes) -> M)

  /** The effect of `UnmarshalVT` on a message: fields are merged one after the other. */
  function Decode<M>(skip: Skipper, fmt: Format<M>, m: M, s: Bytes): Option<M>
    decreases |s|
  {
    if s == [] then Some(m) else
    match NextField(skip, fmt.schema, s)
    case None => None
    case Some((field, n)) =>
      match Merged(fmt, m, field)
      case None => None
      case Some(next) => Decode(skip, fmt, next, s[n..])
  }

  function Merged<M>(fmt: Format<M>, m: M, field: Field): Option<M> {
    if field.UnknownField? then Some(fmt.keep(m, field.bytes)) else fmt.merge(m, field)
  }

  /** A field is recognised from its own bytes, whatever follows. */
  lemma NextIgnoresRest(skip: Skipper, schema: Schema, s: Bytes, rest: Bytes)
    requires NextField(skip, schema, s).Some?
    ensures NextField(skip, schema, s + rest) == NextField(skip, schema, s)
  {
    hide ReadVarint, ToInt64, ToInt32;
    ReadIgnoresRest(s, rest, 0);
    var (tag, n) := ReadVarint(s, 0).value;
    assert (s + rest)[n..] == s[n..] + rest;
    if TagNumber(tag) !in schema {
      assert SkipsWithin(skip, s) && SameFront(s, s + rest, skip(s).value);
      assert (s + rest)[..skip(s).value] == s[..skip(s).value];
    } else {
      ReadIgnoresRest(s[n..], rest, 0);
      if schema[TagNumber(tag)] == Delimited {
        var (raw, m) := ReadVarint(s[n..], 0).value;
        var len := ToInt64(raw);
        assert (s + rest)[n + m..n + m + len] == s[n + m..n + m + len];
      }
    }
  }

  /** Decoding two parts back to back is decoding the second into the result of the first. */
  lemma {:induction false} DecodeConcat<M>(skip: Skipper, fmt: Format<M>, m: M, a: Bytes, b: Bytes)
    requires Decode(skip, fmt, m, a).Some?
    ensures Decode(skip, fmt, m, a + b) == Decode(skip, fmt, Decode(skip, fmt, m, a).value, b)
    decreases |a|
  {
    if a == [] {
      assert a + b == b;
    } else {
      NextIgnoresRest(skip, fmt.schema, a, b);
      var (field, n) := NextField(skip, fmt.schema, a).value;
      assert (a + b)[n..] == a[n..] + b;
      DecodeConcat(skip, fmt, Merged(fmt, m, field).value, a[n..], b);
    }
  }

  /** A varint field as it is written; zero is left out. */
  function PutNumber(num: nat, v: Uint64): (r: Bytes)
    requires 1 <= num <= 15
  {
    if v == 0 then [] else [num * 8] + VarintOf(v)
  }

  /** A delimited field as it is written, empty or not. */
  function PutNested(num: nat, body: Bytes): Bytes
    requires 1 <= num <= 15 && |body| < TWO63
  {
    [num * 8 + 2] + VarintOf(|body|) + body
  }

  /** A string field as it is written; the empty string is left out. */
  function PutBytes(num: nat, bytes: Bytes): Bytes
    requires 1 <= num <= 15 && |bytes| < TWO63
  {
    if bytes == [] then [] else PutNested(num, bytes)
  }

  lemma TagRoundTrip(tag: Byte, rest: Bytes)
    requires 8 <= tag < 128
    ensures ReadVarint([tag] + rest, 0) == Some((tag, 1))
    ensures TagNumber(tag) == tag / 8 && TagType(tag) == tag % 8
  {
  }

  lemma NumberRoundTrip(skip: Skipper, schema: Schema, num: nat, v: Uint64, rest: Bytes)
    requires 1 <= num <= 15 && num in schema && schema[num] == Number && v != 0
    ensures NextField(skip, schema, PutNumber(num, v) + rest) == Some((NumberField(num, v), |PutNumber(num, v)|))
  {
    hide ReadVarint, VarintOf, SizeOfVarint, ToInt32;
    var s := PutNumber(num, v) + rest;
    assert s == [num * 8] + (VarintOf(v) + rest);
    TagRoundTrip(num * 8, VarintOf(v) + rest);
    assert s[1..] == VarintOf(v) + rest;
    VarintRoundTrip(v, rest);
  }

  lemma NestedRoundTrip(skip: Skipper, schema: Schema, num: nat, body: Bytes, rest: Bytes)
    requires 1 <= num <= 15 && num in schema && schema[num] == Delimited && |body| < TWO63
    ensures NextField(skip, schema, PutNested(num, body) + rest)
         == Some((BytesField(num, body), |PutNested(num, body)|))
  {
    hide ReadVarint, VarintOf, SizeOfVarint, ToInt32;
    var s, len := PutNested(num, body) + rest, VarintOf(|body|);
    assert s == [num * 8 + 2] + (len + (body + rest));
    TagRoundTrip(num * 8 + 2, len + (body + rest));
    assert s[1..] == len + (body + rest);
    VarintRoundTrip(|body|, body + rest);
    assert s[1 + |len|..1 + |len| + |body|] == body;
  }

  /** Decoding a written varint field: nothing happens for zero, else the field is merged. */
  lemma DecodeNumber<M>(skip: Skipper, fmt: Format<M>, m: M, num: nat, v: Uint64, rest: Bytes, next: M)
    requires 1 <= num <= 15 && num in fmt.schema && fmt.schema[num] == Number
    requires if v == 0 then next == m else fmt.merge(m, NumberField(num, v)) == Some(next)
    ensures Decode(skip, fmt, m, PutNumber(num, v) + rest) == Decode(skip, fmt, next, rest)
  {
    if v == 0 {
      assert PutNumber(num, v) + rest == rest;
    } else {
      NumberRoundTrip(skip, fmt.schema, num, v, rest);
      assert (PutNumber(num, v) + rest)[|PutNumber(num, v)|..] == rest;
    }
  }

  /** Decoding a written delimited field. */
  lemma DecodeNested<M>(skip: Skipper, fmt: Format<M>, m: M, num: nat, body: Bytes, rest: Bytes)
    requires 1 <= num <= 15 && num in fmt.schema && fmt.schema[num] == Delimited && |body| < TWO63
    ensures Decode(skip, fmt, m, PutNested(num, body) + rest) ==
      match fmt.merge(m, BytesField(num, body)) case None => None case Some(next) => Decode(skip, fmt, next, rest)
  {
    NestedRoundTrip(skip, fmt.schema, num, body, rest);
    assert (PutNested(num, body) + rest)[|PutNested(num, body)|..] == rest;
  }

  lemma DecodeBytes<M>(skip: Skipper, fmt: Format<M>, m: M, num: nat, bytes: Bytes, rest: Bytes, next: M)
    requires 1 <= num <= 15 && num in fmt.schema && fmt.schema[num] == Delimited && |bytes| < TWO63
    requires if bytes == [] then next == m else fmt.merge(m, BytesField(num, bytes)) == Some(next)
    ensures Decode(skip, fmt, m, PutBytes(num, bytes) + rest) == Decode(skip, fmt, next, rest)
  {
    if bytes == [] {
      assert PutBytes(num, bytes) + rest == rest;
    } else {
      DecodeNested(skip, fmt, m, num, bytes, rest);
    }
  }

  /** `u` is a run of unknown fields, such as the decoder collects. */
  ghost predicate AllUnknown(skip: Skipper, schema: Schema, u: Bytes)
    decreases |u|
  {
    u == [] ||
    (NextField(skip, schema, u).Some? && NextField(skip, schema, u).value.0.UnknownField?
      && AllUnknown(skip, schema, u[NextField(skip, schema, u).value.1..]))
  }

  /** Keeping bytes is appending them. */
  ghost predicate KeepsInOrder<M(!new)>(fmt: Format<M>) {
    && (forall m: M :: fmt.keep(m, []) == m)
    && (forall m: M, a: Bytes, b: Bytes :: fmt.keep(fmt.keep(m, a), b) == fmt.keep(m, a + b))
  }

  lemma UnknownIsPrefix(skip: Skipper, schema: Schema, s: Bytes)
    requires NextField(skip, schema, s).Some? && NextField(skip, schema, s).value.0.UnknownField?
    ensures NextField(skip, schema, s).value.0.bytes == s[..NextField(skip, schema, s).value.1]
  {
  }

  lemma {:induction false} DecodeUnknown<M(!new)>(skip: Skipper, fmt: Format<M>, m: M, u: Bytes)
    requires AllUnknown(skip, fmt.schema, u) && KeepsInOrder(fmt)
    ensures Decode(skip, fmt, m, u) == Some(fmt.keep(m, u))
    decreases |u|
  {
    if u != [] {
      var (field, n) := NextField(skip, fmt.schema, u).value;
      UnknownIsPrefix(skip, fmt.schema, u);
      DecodeUnknown(skip, fmt, fmt.keep(m, u[..n]), u[n..]);
      assert u == u[..n] + u[n..];
    }
  }

  lemma UnknownAlone(skip: Skipper, schema: Schema, s: Bytes)
    requires NextField(skip, schema, s).Some? && NextField(skip, schema, s).value.0.UnknownField?
    ensures
      var (field, n) := NextField(skip, schema, s).value;
      NextField(skip, schema, s[..n]) == Some((field, n))
  {
    var (field, n) := NextField(skip, schema, s).value;
    var (tag, k) := ReadVarint(s, 0).value;
    assert SkipsWithin(skip, s) && SameFront(s, s[..n], n);
    ReadOwnBytes(s, 0, n);
    assert s[..n][..n] == s[..n];
  }

  /** One more unknown field at the end of a run. */
  lemma {:induction false} UnknownGrows(skip: Skipper, schema: Schema, u: Bytes, s: Bytes)
    requires AllUnknown(skip, schema, u)
    requires s != [] && NextField(skip, schema, s).Some? && NextField(skip, schema, s).value.0.UnknownField?
    ensures AllUnknown(skip, schema, u + NextField(skip, schema, s).value.0.bytes)
    decreases |u|
  {
    hide NextField;
    var (field, n) := NextField(skip, schema, s).value;
    UnknownIsPrefix(skip, schema, s);
    if u == [] {
      assert u + field.bytes == s[..n];
      UnknownAlone(skip, schema, s);
    } else {
      var (first, k) := NextField(skip, schema, u).value;
      NextIgnoresRest(skip, schema, u, field.bytes);
      assert (u + field.bytes)[k..] == u[k..] + field.bytes;
      UnknownGrows(skip, schema, u[k..], s);
    }
  }
}
