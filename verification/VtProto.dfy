/** The generated codec of internal/types/proto. A message is an object; marshalling fills a buffer from its end
    downwards, unmarshalling walks an index through the input and sets the fields as it meets them. The index leaves
    the loop equal to the length of the input, so the check for an index beyond it that ends each generated
    `UnmarshalVT` never fires. */
module VtProto {
  import opened Wrappers
  import opened Machine
  import opened Varint
  import opened Wire
  import P = Proto

  // ---------------------------------------------------------------- filling a buffer from its end

  /** The cells of `s` from `i` hold `body` and then `rest`, and those below `i` are what they were. */
  ghost predicate Filled(s: Bytes, i: nat, before: Bytes, body: Bytes, rest: Bytes) {
    i <= |s| == |before| && s[..i] == before[..i] && s[i..] == body + rest
  }

  lemma FilledEmpty(s: Bytes, i: nat)
    requires i <= |s|
    ensures Filled(s, i, s, [], s[i..])
  {
  }

  lemma FilledLonger(s: Bytes, t: Bytes, i: nat, j: nat, before: Bytes, head: Bytes, body: Bytes, rest: Bytes)
    requires Filled(s, i, before, body, rest) && j <= i && |t| == |s|
    requires t[..j] == s[..j] && t[j..] == head + s[i..]
    ensures Filled(t, j, before, head + body, rest)
  {
    assert t[..j] == s[..i][..j] == before[..i][..j] == before[..j];
    assert head + (body + rest) == (head + body) + rest;
  }

  /** `i -= len(bytes); copy(data[i:], bytes)` */
  method CopyBefore(data: array<Byte>, i: nat, bytes: Bytes, ghost before: Bytes, ghost body: Bytes, ghost rest: Bytes)
    returns (j: nat)
    requires Filled(data[..], i, before, body, rest) && |bytes| <= i
    modifies data
    ensures j == i - |bytes| && Filled(data[..], j, before, bytes + body, rest)
  {
    j := i - |bytes|;
    ghost var s := data[..];
    forall k | j <= k < i {
      data[k] := bytes[k - j];
    }
    assert data[..][j..] == bytes + s[i..];
    FilledLonger(s, data[..], i, j, before, bytes, body, rest);
  }

  method VarintBefore(data: array<Byte>, i: nat, v: Uint64, ghost before: Bytes, ghost body: Bytes, ghost rest: Bytes)
    returns (j: nat)
    requires Filled(data[..], i, before, body, rest) && SizeOfVarint(v) <= i
    modifies data
    ensures j == i - SizeOfVarint(v) && Filled(data[..], j, before, VarintOf(v) + body, rest)
  {
    ghost var s := data[..];
    j := EncodeVarint(data, i, v);
    assert data[..][..j] == data[..j] && data[..][j..] == data[j..];
    FilledLonger(s, data[..], i, j, before, VarintOf(v), body, rest);
  }

  /** `i--; data[i] = tag` */
  method TagBefore(data: array<Byte>, i: nat, tag: Byte, ghost before: Bytes, ghost body: Bytes, ghost rest: Bytes)
    returns (j: nat)
    requires Filled(data[..], i, before, body, rest) && 1 <= i
    modifies data
    ensures j == i - 1 && Filled(data[..], j, before, [tag] + body, rest)
  {
    ghost var s := data[..];
    j := i - 1;
    data[j] := tag;
    assert data[..][j..] == [tag] + s[i..];
    FilledLonger(s, data[..], i, j, before, [tag], body, rest);
  }

  method NumberBefore(data: array<Byte>, i: nat, num: nat, v: Uint64, ghost before: Bytes, ghost body: Bytes,
                      ghost rest: Bytes)
    returns (j: nat)
    requires 1 <= num <= 15 && Filled(data[..], i, before, body, rest) && |PutNumber(num, v)| <= i
    modifies data
    ensures j == i - |PutNumber(num, v)| && Filled(data[..], j, before, PutNumber(num, v) + body, rest)
  {
    hide Filled, VarintOf;
    j := i;
    if v != 0 {
      j := VarintBefore(data, j, v, before, body, rest);
      j := TagBefore(data, j, num * 8, before, VarintOf(v) + body, rest);
      assert [num * 8] + (VarintOf(v) + body) == PutNumber(num, v) + body;
    } else {
      assert PutNumber(num, v) + body == body;
    }
  }

  /** The length and the tag of a nested message that has just been written. */
  method HeaderBefore(data: array<Byte>, i: nat, num: nat, size: nat,
                      ghost before: Bytes, ghost inner: Bytes, ghost body: Bytes, ghost rest: Bytes)
    returns (j: nat)
    requires 1 <= num <= 15 && |inner| == size < TWO63 && Filled(data[..], i, before, inner + body, rest)
    requires |PutNested(num, inner)| <= i + size
    modifies data
    ensures j == i + size - |PutNested(num, inner)| && Filled(data[..], j, before, PutNested(num, inner) + body, rest)
  {
    hide Filled, VarintOf;
    j := VarintBefore(data, i, size, before, inner + body, rest);
    j := TagBefore(data, j, num * 8 + 2, before, VarintOf(size) + (inner + body), rest);
    assert [num * 8 + 2] + (VarintOf(size) + (inner + body)) == PutNested(num, inner) + body;
  }

  method BytesBefore(data: array<Byte>, i: nat, num: nat, bytes: Bytes, ghost before: Bytes, ghost body: Bytes,
                     ghost rest: Bytes)
    returns (j: nat)
    requires 1 <= num <= 15 && |bytes| < TWO63 && Filled(data[..], i, before, body, rest) && |PutBytes(num, bytes)| <= i
    modifies data
    ensures j == i - |PutBytes(num, bytes)| && Filled(data[..], j, before, PutBytes(num, bytes) + body, rest)
  {
    hide Filled, VarintOf;
    j := i;
    if |bytes| > 0 {
      j := CopyBefore(data, j, bytes, before, body, rest);
      j := HeaderBefore(data, j, num, |bytes|, before, bytes, body, rest);
    } else {
      assert PutBytes(num, bytes) + body == body;
    }
  }

  // ---------------------------------------------------------------- adding up a size

  /** `if v != 0 { n += 1 + SizeOfVarint(v) }` */
  method AddNumber(n: nat, v: Uint64) returns (m: nat)
    ensures m == n + P.NumberSize(v)
  {
    m := n;
    if v != 0 {
      m := m + 1 + SizeOfVarint(v);
    }
  }

  method AddNested(n: nat, l: nat) returns (m: nat)
    requires l < TWO63
    ensures m == n + P.NestedSize(l)
  {
    m := n + 1 + l + SizeOfVarint(l);
  }

  method AddBytes(n: nat, bytes: Bytes) returns (m: nat)
    requires |bytes| < TWO63
    ensures m == n + P.BytesSize(bytes)
  {
    m := n;
    if |bytes| > 0 {
      m := AddNested(m, |bytes|);
    }
  }

  // ---------------------------------------------------------------- walking an index through the input

  /** A legal tag at the front of `s`: the field number, the wire type, the length of the tag. */
  ghost function TagOf(s: Bytes): Option<(Int32, nat, nat)> {
    match ReadVarint(s, 0)
    case None => None
    case Some((raw, n)) =>
      if TagType(raw) == 4 || TagNumber(raw) <= 0 then None else Some((TagNumber(raw), TagType(raw), n))
  }

  /** The field at `start` ends at `next`, or there is none. */
  ghost predicate IsRead(skip: Skipper, schema: Schema, data: Bytes, start: nat, next: nat, ok: bool)
    requires start <= |data|
  {
    var field := NextField(skip, schema, data[start..]);
    ok == field.Some? && (ok ==> start < next <= |data| && field.value.1 == next - start)
  }

  ghost function FieldAt(skip: Skipper, schema: Schema, data: Bytes, start: nat): Field
    requires start <= |data| && NextField(skip, schema, data[start..]).Some?
  {
    NextField(skip, schema, data[start..]).value.0
  }

  method ReadTag(skip: Skipper, ghost schema: Schema, data: Bytes, index: nat)
    returns (fieldNum: Int32, wireType: nat, next: nat, ok: bool)
    requires index < |data|
    ensures ok ==> index < next <= |data| && TagOf(data[index..]) == Some((fieldNum, wireType, next - index))
    ensures !ok ==> IsRead(skip, schema, data, index, next, false)
  {
    hide ReadVarint;
    fieldNum, wireType, ok := 0, 0, false;
    var wire;
    wire, next := DecodeVarint(data, index, true);
    if wire.None? {
      return;
    }
    fieldNum, wireType := ToInt32(wire.value / 8), wire.value % 8;
    ok := wireType != 4 && fieldNum > 0;
  }

  /** A varint field, in an integer of 64 or of 32 bits. */
  method ReadNumber(skip: Skipper, ghost schema: Schema, data: Bytes, ghost start: nat, index: nat,
                    fieldNum: Int32, wireType: nat, wide: bool)
    returns (v: Option<nat>, next: nat, ghost raw: nat)
    requires start < index <= |data| && TagOf(data[start..]) == Some((fieldNum, wireType, index - start))
    requires fieldNum in schema && schema[fieldNum] == Number
    ensures IsRead(skip, schema, data, start, next, v.Some?)
    ensures v.Some? ==> FieldAt(skip, schema, data, start) == NumberField(fieldNum, raw)
    ensures v.Some? ==> v.value == Truncated(raw, wide)
    ensures v.Some? ==> index < next <= |data|
  {
    hide ReadVarint, Truncated;
    assert data[start..][index - start..] == data[index..];
    v, next, raw := None, index, 0;
    if wireType != 0 {
      return;
    }
    v, next := DecodeVarint(data, index, wide);
    if v.Some? {
      raw := ReadVarint(data[index..], 0).value.0;
    }
  }

  /** A length, checked for its sign and against the end of the input, and that many bytes. */
  method ReadBytes(skip: Skipper, ghost schema: Schema, data: Bytes, ghost start: nat, index: nat,
                   fieldNum: Int32, wireType: nat)
    returns (v: Option<Bytes>, next: nat)
    requires start < index <= |data| && TagOf(data[start..]) == Some((fieldNum, wireType, index - start))
    requires fieldNum in schema && schema[fieldNum] == Delimited
    ensures IsRead(skip, schema, data, start, next, v.Some?)
    ensures v.Some? ==> FieldAt(skip, schema, data, start) == BytesField(fieldNum, v.value)
    ensures v.Some? ==> index < next <= |data|
  {
    hide ReadVarint;
    ghost var s := data[start..];
    assert s[index - start..] == data[index..];
    if wireType != 2 {
      return None, index;
    }
    var raw;
    raw, next := DecodeVarint(data, index, true);
    if raw.None? {
      return None, next;
    }
    var intLen := ToInt64(raw.value);
    if intLen < 0 {
      return None, next;
    }
    var postIndex := next + intLen;
    if postIndex > |data| {
      return None, next;
    }
    BytesFieldAt(skip, schema, data, start, index, fieldNum, next, intLen);
    v, next := Some(data[next..postIndex]), postIndex;
  }

  lemma BytesFieldAt(skip: Skipper, schema: Schema, data: Bytes, start: nat, index: nat, fieldNum: Int32, next: nat,
                     length: nat)
    requires start < index < next && next + length <= |data|
    requires TagOf(data[start..]) == Some((fieldNum, 2, index - start))
    requires fieldNum in schema && schema[fieldNum] == Delimited
    requires ReadVarint(data[index..], 0).Some? && ReadVarint(data[index..], 0).value.1 == next - index
    requires ToInt64(ReadVarint(data[index..], 0).value.0) == length
    ensures IsRead(skip, schema, data, start, next + length, true)
    ensures FieldAt(skip, schema, data, start) == BytesField(fieldNum, data[next..next + length])
  {
    hide ReadVarint, ToInt64;
    var s := data[start..];
    assert s[index - start..] == data[index..];
    assert s[next - start..next + length - start] == data[next..next + length];
  }

  /** The `default` case: the index goes back to the tag, and the whole field is kept. */
  method ReadUnknown(skip: Skipper, ghost schema: Schema, data: Bytes, preIndex: nat, ghost fieldNum: Int32)
    returns (v: Option<Bytes>, next: nat)
    requires preIndex < |data| && TagOf(data[preIndex..]).Some? && TagOf(data[preIndex..]).value.0 == fieldNum
    requires fieldNum !in schema
    ensures IsRead(skip, schema, data, preIndex, next, v.Some?)
    ensures v.Some? ==> FieldAt(skip, schema, data, preIndex) == UnknownField(v.value)
    ensures v.Some? ==> preIndex < next <= |data|
  {
    hide ReadVarint;
    var skippy := skip(data[preIndex..]);
    if skippy.None? || preIndex + skippy.value > |data| {
      return None, preIndex;
    }
    next := preIndex + skippy.value;
    assert data[preIndex..][..skippy.value] == data[preIndex..next];
    v := Some(data[preIndex..next]);
  }

  /** What one turn of the loop makes of `m`: the field at `start` merged, if there is one and it merges, and the
      index behind that field. */
  ghost predicate Turned<M>(skip: Skipper, fmt: Format<M>, m: M, data: Bytes, start: nat, next: nat, r: Option<M>)
    requires start <= |data|
  {
    var field := NextField(skip, fmt.schema, data[start..]);
    r == (if field.None? then None else Merged(fmt, m, field.value.0))
    && (r.Some? ==> start < next <= |data| && field.value.1 == next - start)
  }

  lemma TurnedAt<M>(skip: Skipper, fmt: Format<M>, m: M, data: Bytes, start: nat, next: nat, r: Option<M>, ok: bool)
    requires start <= |data| && IsRead(skip, fmt.schema, data, start, next, ok)
    requires r == if ok then Merged(fmt, m, FieldAt(skip, fmt.schema, data, start)) else None
    ensures Turned(skip, fmt, m, data, start, next, r)
  {
  }

  lemma DecodeStep<M>(skip: Skipper, fmt: Format<M>, m: M, data: Bytes, start: nat, next: nat, r: Option<M>)
    requires start < |data| && Turned(skip, fmt, m, data, start, next, r)
    ensures r.None? ==> Decode(skip, fmt, m, data[start..]) == None
    ensures r.Some? ==> start < next <= |data|
    ensures r.Some? ==> Decode(skip, fmt, m, data[start..]) == Decode(skip, fmt, r.value, data[next..])
  {
    hide NextField;
    if r.Some? {
      assert data[start..][next - start..] == data[next..];
    }
  }

  lemma FilledTwice(s: Bytes, t: Bytes, i: nat, j: nat, before: Bytes, inner: Bytes, body: Bytes, rest: Bytes)
    requires Filled(s, i, before, body, rest) && j <= i && Filled(t, j, s, inner, s[i..])
    ensures Filled(t, j, before, inner + body, rest)
  {
    FilledLonger(s, t, i, j, before, inner, body, rest);
  }

  lemma FilledWhole(s: Bytes, before: Bytes, body: Bytes)
    requires Filled(s, 0, before, body, before[|before|..])
    ensures s == body
  {
    assert s == s[0..];
  }

  lemma TruncatedReads(raw: nat)
    ensures ToInt64(Truncated(raw, true)) == ToInt64(raw) && ToInt32(Truncated(raw, false)) == ToInt32(raw)
    ensures Truncated(raw, true) == raw % TWO64 && Truncated(raw, false) == raw % TWO32
  {
  }

  // ---------------------------------------------------------------- messages

  class Timestamp {
    var seconds: Int64
    var nanos: Int32
    var unknownFields: Bytes

    constructor ()
      ensures Value() == P.NEW_TIMESTAMP
    {
      seconds, nanos, unknownFields := 0, 0, [];
    }

    method Reset()
      modifies this
      ensures Value() == P.NEW_TIMESTAMP
    {
      seconds, nanos, unknownFields := 0, 0, [];
    }

    ghost function Value(): P.Timestamp
      reads this
    {
      P.Timestamp(seconds, nanos, unknownFields)
    }

    method SizeVT() returns (n: nat)
      ensures n == P.SizeTimestamp(Value()) == |P.EncodeTimestamp(Value())|
    {
      hide P.NumberSize, P.NestedSize, P.EncodeTimestamp;
      P.TimestampSizeIsExact(Value());
      n := 0;
      n := AddNumber(n, P.ToUint64(seconds));
      n := AddNumber(n, P.ToUint64(nanos));
      n := n + |unknownFields|;
    }

    /** Writes the message so that it ends before `end`. */
    method MarshalToSizedBufferVT(data: array<Byte>, end: nat) returns (size: nat)
      requires P.SizeTimestamp(Value()) <= end <= data.Length
      modifies data
      ensures size == P.SizeTimestamp(Value())
      ensures Filled(data[..], end - size, old(data[..]), P.EncodeTimestamp(Value()), old(data[..])[end..])
    {
      hide Filled, PutNumber, P.SizeTimestamp, P.ToUint64;
      P.TimestampSizeIsExact(Value());
      ghost var before := data[..];
      ghost var rest := before[end..];
      FilledEmpty(before, end);
      var i := CopyBefore(data, end, unknownFields, before, [], rest);
      assert unknownFields + [] == unknownFields;
      i := NumberBefore(data, i, 2, P.ToUint64(nanos), before, unknownFields, rest);
      ghost var b2 := PutNumber(2, P.ToUint64(nanos)) + unknownFields;
      i := NumberBefore(data, i, 1, P.ToUint64(seconds), before, b2, rest);
      size := end - i;
    }

    method UnmarshalVT(skip: Skipper, data: Bytes) returns (ok: bool)
      modifies this
      ensures ok == P.DecodeTimestamp(skip, old(Value()), data).Some?
      ensures ok ==> Some(Value()) == P.DecodeTimestamp(skip, old(Value()), data)
    {
      ghost var fmt := P.TimestampFormat();
      var l, index := |data|, 0;
      assert data[0..] == data;
      hide Decode, IsRead, Turned, TagOf, FieldAt;
      while index < l
        invariant index <= l
        invariant Decode(skip, fmt, Value(), data[index..]) == P.DecodeTimestamp(skip, old(Value()), data)
      {
        var preIndex := index;
        ghost var before := Value();
        var fieldNum, wireType;
        fieldNum, wireType, index, ok := ReadTag(skip, fmt.schema, data, preIndex);
        if ok {
          ok, index := SetField(skip, data, preIndex, index, fieldNum, wireType);
        } else {
          TurnedAt(skip, fmt, before, data, preIndex, index, None, false);
        }
        DecodeStep(skip, fmt, before, data, preIndex, index, if ok then Some(Value()) else None);
        if !ok {
          return;
        }
      }
      assert index == l;
      ok := true;
    }

    /** The `switch` of the loop. */
    method SetField(skip: Skipper, data: Bytes, preIndex: nat, index: nat, fieldNum: Int32, wireType: nat)
      returns (ok: bool, next: nat)
      requires preIndex < index <= |data| && TagOf(data[preIndex..]) == Some((fieldNum, wireType, index - preIndex))
      modifies this
      ensures Turned(skip, P.TimestampFormat(), old(Value()), data, preIndex, next, if ok then Some(Value()) else None)
    {
      hide IsRead, Turned, TagOf, ToInt64, ToInt32, Truncated, FieldAt;
      ghost var fmt := P.TimestampFormat();
      ghost var read;
      match fieldNum {
        case 1 =>
          var v; ghost var raw;
          v, next, raw := ReadNumber(skip, fmt.schema, data, preIndex, index, fieldNum, wireType, true);
          read, ok := v.Some?, v.Some?;
          if ok {
            TruncatedReads(raw);
            seconds := ToInt64(v.value);
          }
        case 2 =>
          var v; ghost var raw;
          v, next, raw := ReadNumber(skip, fmt.schema, data, preIndex, index, fieldNum, wireType, false);
          read, ok := v.Some?, v.Some?;
          if ok {
            TruncatedReads(raw);
            nanos := ToInt32(v.value);
          }
        case _ =>
          var v;
          v, next := ReadUnknown(skip, fmt.schema, data, preIndex, fieldNum);
          read, ok := v.Some?, v.Some?;
          if ok {
            unknownFields := unknownFields + v.value;
          }
      }
      TurnedAt(skip, fmt, old(Value()), data, preIndex, next, if ok then Some(Value()) else None, read);
    }
  }

  class Message {
    var id: Int64
    var contentLength: Uint64
    var mimeType: Int32
    var contentHash: Uint64
    var name: Bytes
    var batchID: Int64
    var batchTotal: Uint32
    var unknownFields: Bytes

    constructor ()
      ensures Value() == P.NEW_MESSAGE
    {
      id, contentLength, mimeType, contentHash, name, batchID, batchTotal, unknownFields := 0, 0, 0, 0, [], 0, 0, [];
    }

    ghost function Value(): P.Message
      reads this
    {
      P.Message(id, contentLength, mimeType, contentHash, name, batchID, batchTotal, unknownFields)
    }

    method SizeVT() returns (n: nat)
      requires P.MessageFits(Value())
      ensures n == P.SizeMessage(Value()) == |P.EncodeMessage(Value())|
    {
      hide P.NumberSize, P.NestedSize, P.EncodeMessage;
      P.MessageSizeIsExact(Value());
      n := 0;
      n := AddNumber(n, P.ToUint64(id));
      n := AddNumber(n, contentLength);
      n := AddNumber(n, P.ToUint64(mimeType));
      n := AddNumber(n, contentHash);
      n := AddBytes(n, name);
      n := AddNumber(n, P.ToUint64(batchID));
      n := AddNumber(n, batchTotal);
      n := n + |unknownFields|;
    }

    method MarshalToSizedBufferVT(data: array<Byte>, end: nat) returns (size: nat)
      requires P.MessageFits(Value()) && P.SizeMessage(Value()) <= end <= data.Length
      modifies data
      ensures size == P.SizeMessage(Value())
      ensures Filled(data[..], end - size, old(data[..]), P.EncodeMessage(Value()), old(data[..])[end..])
    {
      hide Filled, PutNumber, PutBytes, P.SizeMessage, P.ToUint64;
      P.MessageSizeIsExact(Value());
      ghost var before := data[..];
      ghost var rest := before[end..];
      FilledEmpty(before, end);
      var i := CopyBefore(data, end, unknownFields, before, [], rest);
      assert unknownFields + [] == unknownFields;
      i := NumberBefore(data, i, 7, batchTotal, before, unknownFields, rest);
      ghost var b7 := PutNumber(7, batchTotal) + unknownFields;
      i := NumberBefore(data, i, 6, P.ToUint64(batchID), before, b7, rest);
      ghost var b6 := PutNumber(6, P.ToUint64(batchID)) + b7;
      i := BytesBefore(data, i, 5, name, before, b6, rest);
      ghost var b5 := PutBytes(5, name) + b6;
      i := NumberBefore(data, i, 4, contentHash, before, b5, rest);
      ghost var b4 := PutNumber(4, contentHash) + b5;
      i := NumberBefore(data, i, 3, P.ToUint64(mimeType), before, b4, rest);
      ghost var b3 := PutNumber(3, P.ToUint64(mimeType)) + b4;
      i := NumberBefore(data, i, 2, contentLength, before, b3, rest);
      ghost var b2 := PutNumber(2, contentLength) + b3;
      i := NumberBefore(data, i, 1, P.ToUint64(id), before, b2, rest);
      size := end - i;
    }

    method UnmarshalVT(skip: Skipper, data: Bytes) returns (ok: bool)
      modifies this
      ensures ok == P.DecodeMessage(skip, old(Value()), data).Some?
      ensures ok ==> Some(Value()) == P.DecodeMessage(skip, old(Value()), data)
    {
      ghost var fmt := P.MessageFormat();
      var l, index := |data|, 0;
      assert data[0..] == data;
      hide Decode, IsRead, Turned, TagOf, FieldAt;
      while index < l
        invariant index <= l
        invariant Decode(skip, fmt, Value(), data[index..]) == P.DecodeMessage(skip, old(Value()), data)
      {
        var preIndex := index;
        ghost var before := Value();
        var fieldNum, wireType;
        fieldNum, wireType, index, ok := ReadTag(skip, fmt.schema, data, preIndex);
        if ok {
          ok, index := SetField(skip, data, preIndex, index, fieldNum, wireType);
        } else {
          TurnedAt(skip, fmt, before, data, preIndex, index, None, false);
        }
        DecodeStep(skip, fmt, before, data, preIndex, index, if ok then Some(Value()) else None);
        if !ok {
          return;
        }
      }
      assert index == l;
      ok := true;
    }

    method SetField(skip: Skipper, data: Bytes, preIndex: nat, index: nat, fieldNum: Int32, wireType: nat)
      returns (ok: bool, next: nat)
      requires preIndex < index <= |data| && TagOf(data[preIndex..]) == Some((fieldNum, wireType, index - preIndex))
      modifies this
      ensures Turned(skip, P.MessageFormat(), old(Value()), data, preIndex, next, if ok then Some(Value()) else None)
    {
      hide IsRead, Turned, TagOf, ToInt64, ToInt32, Truncated, FieldAt;
      ghost var fmt := P.MessageFormat();
      ghost var read;
      match fieldNum {
        case 1 =>
          var v; ghost var raw;
          v, next, raw := ReadNumber(skip, fmt.schema, data, preIndex, index, fieldNum, wireType, true);
          read, ok := v.Some?, v.Some?;
          if ok {
            TruncatedReads(raw);
            id := ToInt64(v.value);
          }
        case 2 =>
          var v; ghost var raw;
          v, next, raw := ReadNumber(skip, fmt.schema, data, preIndex, index, fieldNum, wireType, true);
          read, ok := v.Some?, v.Some?;
          if ok {
            TruncatedReads(raw);
            contentLength := v.value;
          }
        case 3 =>
          var v; ghost var raw;
          v, next, raw := ReadNumber(skip, fmt.schema, data, preIndex, index, fieldNum, wireType, false);
          read, ok := v.Some?, v.Some?;
          if ok {
            TruncatedReads(raw);
            mimeType := ToInt32(v.value);
          }
        case 4 =>
          var v; ghost var raw;
          v, next, raw := ReadNumber(skip, fmt.schema, data, preIndex, index, fieldNum, wireType, true);
          read, ok := v.Some?, v.Some?;
          if ok {
            TruncatedReads(raw);
            contentHash := v.value;
          }
        case 5 =>
          var v;
          v, next := ReadBytes(skip, fmt.schema, data, preIndex, index, fieldNum, wireType);
          read, ok := v.Some?, v.Some?;
          if ok {
            name := v.value;
          }
        case 6 =>
          var v; ghost var raw;
          v, next, raw := ReadNumber(skip, fmt.schema, data, preIndex, index, fieldNum, wireType, true);
          read, ok := v.Some?, v.Some?;
          if ok {
            TruncatedReads(raw);
            batchID := ToInt64(v.value);
          }
        case 7 =>
          var v; ghost var raw;
          v, next, raw := ReadNumber(skip, fmt.schema, data, preIndex, index, fieldNum, wireType, false);
          read, ok := v.Some?, v.Some?;
          if ok {
            TruncatedReads(raw);
            batchTotal := v.value;
          }
        case _ =>
          var v;
          v, next := ReadUnknown(skip, fmt.schema, data, preIndex, fieldNum);
          read, ok := v.Some?, v.Some?;
          if ok {
            unknownFields := unknownFields + v.value;
          }
      }
      TurnedAt(skip, fmt, old(Value()), data, preIndex, next, if ok then Some(Value()) else None, read);
    }
  }

  class Announce {
    var id: Int64
    var contentLength: Uint64
    var mimeType: Int32
    var contentHash: Uint64
    var batchID: Int64
    var batchTotal: Uint32
    var unknownFields: Bytes

    constructor ()
      ensures Value() == P.NEW_ANNOUNCE
    {
      id, contentLength, mimeType, contentHash, batchID, batchTotal, unknownFields := 0, 0, 0, 0, 0, 0, [];
    }

    ghost function Value(): P.Announce
      reads this
    {
      P.Announce(id, contentLength, mimeType, contentHash, batchID, batchTotal, unknownFields)
    }

    method SizeVT() returns (n: nat)
      ensures n == P.SizeAnnounce(Value()) == |P.EncodeAnnounce(Value())|
    {
      hide P.NumberSize, P.NestedSize, P.EncodeAnnounce;
      P.AnnounceSizeIsExact(Value());
      n := 0;
      n := AddNumber(n, P.ToUint64(id));
      n := AddNumber(n, contentLength);
      n := AddNumber(n, P.ToUint64(mimeType));
      n := AddNumber(n, contentHash);
      n := AddNumber(n, P.ToUint64(batchID));
      n := AddNumber(n, batchTotal);
      n := n + |unknownFields|;
    }

    method MarshalToSizedBufferVT(data: array<Byte>, end: nat) returns (size: nat)
      requires P.SizeAnnounce(Value()) <= end <= data.Length
      modifies data
      ensures size == P.SizeAnnounce(Value())
      ensures Filled(data[..], end - size, old(data[..]), P.EncodeAnnounce(Value()), old(data[..])[end..])
    {
      hide Filled, PutNumber, P.SizeAnnounce, P.ToUint64;
      P.AnnounceSizeIsExact(Value());
      ghost var before := data[..];
      ghost var rest := before[end..];
      FilledEmpty(before, end);
      var i := CopyBefore(data, end, unknownFields, before, [], rest);
      assert unknownFields + [] == unknownFields;
      i := NumberBefore(data, i, 6, batchTotal, before, unknownFields, rest);
      ghost var b6 := PutNumber(6, batchTotal) + unknownFields;
      i := NumberBefore(data, i, 5, P.ToUint64(batchID), before, b6, rest);
      ghost var b5 := PutNumber(5, P.ToUint64(batchID)) + b6;
      i := NumberBefore(data, i, 4, contentHash, before, b5, rest);
      ghost var b4 := PutNumber(4, contentHash) + b5;
      i := NumberBefore(data, i, 3, P.ToUint64(mimeType), before, b4, rest);
      ghost var b3 := PutNumber(3, P.ToUint64(mimeType)) + b4;
      i := NumberBefore(data, i, 2, contentLength, before, b3, rest);
      ghost var b2 := PutNumber(2, contentLength) + b3;
      i := NumberBefore(data, i, 1, P.ToUint64(id), before, b2, rest);
      size := end - i;
    }

    method UnmarshalVT(skip: Skipper, data: Bytes) returns (ok: bool)
      modifies this
      ensures ok == P.DecodeAnnounce(skip, old(Value()), data).Some?
      ensures ok ==> Some(Value()) == P.DecodeAnnounce(skip, old(Value()), data)
    {
      ghost var fmt := P.AnnounceFormat();
      var l, index := |data|, 0;
      assert data[0..] == data;
      hide Decode, IsRead, Turned, TagOf, FieldAt;
      while index < l
        invariant index <= l
        invariant Decode(skip, fmt, Value(), data[index..]) == P.DecodeAnnounce(skip, old(Value()), data)
      {
        var preIndex := index;
        ghost var before := Value();
        var fieldNum, wireType;
        fieldNum, wireType, index, ok := ReadTag(skip, fmt.schema, data, preIndex);
        if ok {
          ok, index := SetField(skip, data, preIndex, index, fieldNum, wireType);
        } else {
          TurnedAt(skip, fmt, before, data, preIndex, index, None, false);
        }
        DecodeStep(skip, fmt, before, data, preIndex, index, if ok then Some(Value()) else None);
        if !ok {
          return;
        }
      }
      assert index == l;
      ok := true;
    }

    method SetField(skip: Skipper, data: Bytes, preIndex: nat, index: nat, fieldNum: Int32, wireType: nat)
      returns (ok: bool, next: nat)
      requires preIndex < index <= |data| && TagOf(data[preIndex..]) == Some((fieldNum, wireType, index - preIndex))
      modifies this
      ensures Turned(skip, P.AnnounceFormat(), old(Value()), data, preIndex, next, if ok then Some(Value()) else None)
    {
      hide IsRead, Turned, TagOf, ToInt64, ToInt32, Truncated, FieldAt;
      ghost var fmt := P.AnnounceFormat();
      ghost var read;
      match fieldNum {
        case 1 =>
          var v; ghost var raw;
          v, next, raw := ReadNumber(skip, fmt.schema, data, preIndex, index, fieldNum, wireType, true);
          read, ok := v.Some?, v.Some?;
          if ok {
            TruncatedReads(raw);
            id := ToInt64(v.value);
          }
        case 2 =>
          var v; ghost var raw;
          v, next, raw := ReadNumber(skip, fmt.schema, data, preIndex, index, fieldNum, wireType, true);
          read, ok := v.Some?, v.Some?;
          if ok {
            TruncatedReads(raw);
            contentLength := v.value;
          }
        case 3 =>
          var v; ghost var raw;
          v, next, raw := ReadNumber(skip, fmt.schema, data, preIndex, index, fieldNum, wireType, false);
          read, ok := v.Some?, v.Some?;
          if ok {
            TruncatedReads(raw);
            mimeType := ToInt32(v.value);
          }
        case 4 =>
          var v; ghost var raw;
          v, next, raw := ReadNumber(skip, fmt.schema, data, preIndex, index, fieldNum, wireType, true);
          read, ok := v.Some?, v.Some?;
          if ok {
            TruncatedReads(raw);
            contentHash := v.value;
          }
        case 5 =>
          var v; ghost var raw;
          v, next, raw := ReadNumber(skip, fmt.schema, data, preIndex, index, fieldNum, wireType, true);
          read, ok := v.Some?, v.Some?;
          if ok {
            TruncatedReads(raw);
            batchID := ToInt64(v.value);
          }
        case 6 =>
          var v; ghost var raw;
          v, next, raw := ReadNumber(skip, fmt.schema, data, preIndex, index, fieldNum, wireType, false);
          read, ok := v.Some?, v.Some?;
          if ok {
            TruncatedReads(raw);
            batchTotal := v.value;
          }
        case _ =>
          var v;
          v, next := ReadUnknown(skip, fmt.schema, data, preIndex, fieldNum);
          read, ok := v.Some?, v.Some?;
          if ok {
            unknownFields := unknownFields + v.value;
          }
      }
      TurnedAt(skip, fmt, old(Value()), data, preIndex, next, if ok then Some(Value()) else None, read);
    }
  }

  class RequestMessage {
    var id: Int64
    var unknownFields: Bytes

    constructor ()
      ensures Value() == P.NEW_REQUEST
    {
      id, unknownFields := 0, [];
    }

    ghost function Value(): P.Request
      reads this
    {
      P.Request(id, unknownFields)
    }

    method SizeVT() returns (n: nat)
      ensures n == P.SizeRequest(Value()) == |P.EncodeRequest(Value())|
    {
      hide P.NumberSize, P.NestedSize, P.EncodeRequest;
      P.RequestSizeIsExact(Value());
      n := 0;
      n := AddNumber(n, P.ToUint64(id));
      n := n + |unknownFields|;
    }

    method MarshalToSizedBufferVT(data: array<Byte>, end: nat) returns (size: nat)
      requires P.SizeRequest(Value()) <= end <= data.Length
      modifies data
      ensures size == P.SizeRequest(Value())
      ensures Filled(data[..], end - size, old(data[..]), P.EncodeRequest(Value()), old(data[..])[end..])
    {
      hide Filled, PutNumber, P.SizeRequest, P.ToUint64;
      P.RequestSizeIsExact(Value());
      ghost var before := data[..];
      ghost var rest := before[end..];
      FilledEmpty(before, end);
      var i := CopyBefore(data, end, unknownFields, before, [], rest);
      assert unknownFields + [] == unknownFields;
      i := NumberBefore(data, i, 1, P.ToUint64(id), before, unknownFields, rest);
      size := end - i;
    }

    method UnmarshalVT(skip: Skipper, data: Bytes) returns (ok: bool)
      modifies this
      ensures ok == P.DecodeRequest(skip, old(Value()), data).Some?
      ensures ok ==> Some(Value()) == P.DecodeRequest(skip, old(Value()), data)
    {
      ghost var fmt := P.RequestFormat();
      var l, index := |data|, 0;
      assert data[0..] == data;
      hide Decode, IsRead, Turned, TagOf, FieldAt;
      while index < l
        invariant index <= l
        invariant Decode(skip, fmt, Value(), data[index..]) == P.DecodeRequest(skip, old(Value()), data)
      {
        var preIndex := index;
        ghost var before := Value();
        var fieldNum, wireType;
        fieldNum, wireType, index, ok := ReadTag(skip, fmt.schema, data, preIndex);
        if ok {
          ok, index := SetField(skip, data, preIndex, index, fieldNum, wireType);
        } else {
          TurnedAt(skip, fmt, before, data, preIndex, index, None, false);
        }
        DecodeStep(skip, fmt, before, data, preIndex, index, if ok then Some(Value()) else None);
        if !ok {
          return;
        }
      }
      assert index == l;
      ok := true;
    }

    method SetField(skip: Skipper, data: Bytes, preIndex: nat, index: nat, fieldNum: Int32, wireType: nat)
      returns (ok: bool, next: nat)
      requires preIndex < index <= |data| && TagOf(data[preIndex..]) == Some((fieldNum, wireType, index - preIndex))
      modifies this
      ensures Turned(skip, P.RequestFormat(), old(Value()), data, preIndex, next, if ok then Some(Value()) else None)
    {
      hide IsRead, Turned, TagOf, ToInt64, ToInt32, Truncated, FieldAt;
      ghost var fmt := P.RequestFormat();
      ghost var read;
      match fieldNum {
        case 1 =>
          var v; ghost var raw;
          v, next, raw := ReadNumber(skip, fmt.schema, data, preIndex, index, fieldNum, wireType, true);
          read, ok := v.Some?, v.Some?;
          if ok {
            TruncatedReads(raw);
            id := ToInt64(v.value);
          }
        case _ =>
          var v;
          v, next := ReadUnknown(skip, fmt.schema, data, preIndex, fieldNum);
          read, ok := v.Some?, v.Some?;
          if ok {
            unknownFields := unknownFields + v.value;
          }
      }
      TurnedAt(skip, fmt, old(Value()), data, preIndex, next, if ok then Some(Value()) else None, read);
    }
  }

  class Device {
    var name: Bytes
    var arch: Bytes
    var id: Int64
    var unknownFields: Bytes

    constructor ()
      ensures Value() == P.NEW_DEVICE
    {
      name, arch, id, unknownFields := [], [], 0, [];
    }

    ghost function Value(): P.Device
      reads this
    {
      P.Device(name, arch, id, unknownFields)
    }

    method SizeVT() returns (n: nat)
      requires P.DeviceFits(Value())
      ensures n == P.SizeDevice(Value()) == |P.EncodeDevice(Value())|
    {
      hide P.NumberSize, P.NestedSize, P.EncodeDevice;
      P.DeviceSizeIsExact(Value());
      n := 0;
      n := AddBytes(n, name);
      n := AddBytes(n, arch);
      n := AddNumber(n, P.ToUint64(id));
      n := n + |unknownFields|;
    }

    method MarshalToSizedBufferVT(data: array<Byte>, end: nat) returns (size: nat)
      requires P.DeviceFits(Value()) && P.SizeDevice(Value()) <= end <= data.Length
      modifies data
      ensures size == P.SizeDevice(Value())
      ensures Filled(data[..], end - size, old(data[..]), P.EncodeDevice(Value()), old(data[..])[end..])
    {
      hide Filled, PutNumber, PutBytes, P.SizeDevice, P.ToUint64;
      P.DeviceSizeIsExact(Value());
      ghost var before := data[..];
      ghost var rest := before[end..];
      FilledEmpty(before, end);
      var i := CopyBefore(data, end, unknownFields, before, [], rest);
      assert unknownFields + [] == unknownFields;
      i := NumberBefore(data, i, 3, P.ToUint64(id), before, unknownFields, rest);
      ghost var b3 := PutNumber(3, P.ToUint64(id)) + unknownFields;
      i := BytesBefore(data, i, 2, arch, before, b3, rest);
      ghost var b2 := PutBytes(2, arch) + b3;
      i := BytesBefore(data, i, 1, name, before, b2, rest);
      size := end - i;
    }

    method UnmarshalVT(skip: Skipper, data: Bytes) returns (ok: bool)
      modifies this
      ensures ok == P.DecodeDevice(skip, old(Value()), data).Some?
      ensures ok ==> Some(Value()) == P.DecodeDevice(skip, old(Value()), data)
    {
      ghost var fmt := P.DeviceFormat();
      var l, index := |data|, 0;
      assert data[0..] == data;
      hide Decode, IsRead, Turned, TagOf, FieldAt;
      while index < l
        invariant index <= l
        invariant Decode(skip, fmt, Value(), data[index..]) == P.DecodeDevice(skip, old(Value()), data)
      {
        var preIndex := index;
        ghost var before := Value();
        var fieldNum, wireType;
        fieldNum, wireType, index, ok := ReadTag(skip, fmt.schema, data, preIndex);
        if ok {
          ok, index := SetField(skip, data, preIndex, index, fieldNum, wireType);
        } else {
          TurnedAt(skip, fmt, before, data, preIndex, index, None, false);
        }
        DecodeStep(skip, fmt, before, data, preIndex, index, if ok then Some(Value()) else None);
        if !ok {
          return;
        }
      }
      assert index == l;
      ok := true;
    }

    method SetField(skip: Skipper, data: Bytes, preIndex: nat, index: nat, fieldNum: Int32, wireType: nat)
      returns (ok: bool, next: nat)
      requires preIndex < index <= |data| && TagOf(data[preIndex..]) == Some((fieldNum, wireType, index - preIndex))
      modifies this
      ensures Turned(skip, P.DeviceFormat(), old(Value()), data, preIndex, next, if ok then Some(Value()) else None)
    {
      hide IsRead, Turned, TagOf, ToInt64, ToInt32, Truncated, FieldAt;
      ghost var fmt := P.DeviceFormat();
      ghost var read;
      match fieldNum {
        case 1 =>
          var v;
          v, next := ReadBytes(skip, fmt.schema, data, preIndex, index, fieldNum, wireType);
          read, ok := v.Some?, v.Some?;
          if ok {
            name := v.value;
          }
        case 2 =>
          var v;
          v, next := ReadBytes(skip, fmt.schema, data, preIndex, index, fieldNum, wireType);
          read, ok := v.Some?, v.Some?;
          if ok {
            arch := v.value;
          }
        case 3 =>
          var v; ghost var raw;
          v, next, raw := ReadNumber(skip, fmt.schema, data, preIndex, index, fieldNum, wireType, true);
          read, ok := v.Some?, v.Some?;
          if ok {
            TruncatedReads(raw);
            id := ToInt64(v.value);
          }
        case _ =>
          var v;
          v, next := ReadUnknown(skip, fmt.schema, data, preIndex, fieldNum);
          read, ok := v.Some?, v.Some?;
          if ok {
            unknownFields := unknownFields + v.value;
          }
      }
      TurnedAt(skip, fmt, old(Value()), data, preIndex, next, if ok then Some(Value()) else None, read);
    }
  }

  class Handshake {
    var version: Bytes
    var device: Device?
    var port: Uint32
    var unknownFields: Bytes

    constructor ()
      ensures Value() == P.NEW_HANDSHAKE && device == null
    {
      version, device, port, unknownFields := [], null, 0, [];
    }

    ghost function Value(): P.Handshake
      reads this, device
    {
      P.Handshake(version, if device == null then None else Some(device.Value()), port, unknownFields)
    }

    method SizeVT() returns (n: nat)
      requires P.HandshakeFits(Value())
      ensures n == P.SizeHandshake(Value()) == |P.EncodeHandshake(Value())|
    {
      hide P.NumberSize, P.NestedSize, P.EncodeHandshake;
      P.HandshakeSizeIsExact(Value());
      n := 0;
      n := AddBytes(n, version);
      if device != null {
        P.DeviceSizeIsExact(device.Value());
        var l := device.SizeVT();
        n := AddNested(n, l);
      }
      n := AddNumber(n, port);
      n := n + |unknownFields|;
    }

    /** Writes the device, its length and its tag, so that they end before `i`. */
    method MarshalDevice(data: array<Byte>, i: nat, ghost before: Bytes, ghost body: Bytes, ghost rest: Bytes)
      returns (j: nat)
      requires P.HandshakeFits(Value()) && |P.EncodeDeviceField(Value().device)| <= i <= data.Length
      requires Filled(data[..], i, before, body, rest)
      modifies data
      ensures j == i - |P.EncodeDeviceField(Value().device)|
      ensures Filled(data[..], j, before, P.EncodeDeviceField(Value().device) + body, rest)
    {
      hide Filled, PutNested, P.EncodeDevice;
      j := i;
      if device != null {
        ghost var s, d := data[..], device.Value();
        P.DeviceSizeIsExact(d);
        P.NestedSizeIsExact(2, P.EncodeDevice(d));
        var l := device.MarshalToSizedBufferVT(data, i);
        FilledTwice(s, data[..], i, i - l, before, P.EncodeDevice(d), body, rest);
        j := HeaderBefore(data, i - l, 2, l, before, P.EncodeDevice(d), body, rest);
      } else {
        assert [] + body == body;
      }
    }

    method MarshalToSizedBufferVT(data: array<Byte>, end: nat) returns (size: nat)
      requires P.HandshakeFits(Value()) && P.SizeHandshake(Value()) <= end <= data.Length
      modifies data
      ensures size == P.SizeHandshake(Value())
      ensures Filled(data[..], end - size, old(data[..]), P.EncodeHandshake(Value()), old(data[..])[end..])
    {
      hide Filled, PutNumber, PutBytes, P.EncodeDeviceField, P.SizeHandshake;
      P.HandshakeSizeIsExact(Value());
      ghost var before := data[..];
      ghost var rest := before[end..];
      FilledEmpty(before, end);
      var i := CopyBefore(data, end, unknownFields, before, [], rest);
      assert unknownFields + [] == unknownFields;
      i := NumberBefore(data, i, 3, port, before, unknownFields, rest);
      ghost var b3 := PutNumber(3, port) + unknownFields;
      i := MarshalDevice(data, i, before, b3, rest);
      ghost var b2 := P.EncodeDeviceField(Value().device) + b3;
      i := BytesBefore(data, i, 1, version, before, b2, rest);
      size := end - i;
    }

    method UnmarshalVT(skip: Skipper, data: Bytes) returns (ok: bool)
      modifies this, device
      ensures device == old(device) || fresh(device)
      ensures ok == P.DecodeHandshake(skip, old(Value()), data).Some?
      ensures ok ==> Some(Value()) == P.DecodeHandshake(skip, old(Value()), data)
    {
      ghost var fmt := P.HandshakeFormat(skip);
      var l, index := |data|, 0;
      assert data[0..] == data;
      hide Decode, IsRead, Turned, TagOf, FieldAt;
      while index < l
        invariant index <= l
        invariant device == old(device) || fresh(device)
        invariant Decode(skip, fmt, Value(), data[index..]) == P.DecodeHandshake(skip, old(Value()), data)
      {
        var preIndex := index;
        ghost var before := Value();
        var fieldNum, wireType;
        fieldNum, wireType, index, ok := ReadTag(skip, fmt.schema, data, preIndex);
        if ok {
          ok, index := SetField(skip, data, preIndex, index, fieldNum, wireType);
        } else {
          TurnedAt(skip, fmt, before, data, preIndex, index, None, false);
        }
        DecodeStep(skip, fmt, before, data, preIndex, index, if ok then Some(Value()) else None);
        if !ok {
          return;
        }
      }
      assert index == l;
      ok := true;
    }

    method SetField(skip: Skipper, data: Bytes, preIndex: nat, index: nat, fieldNum: Int32, wireType: nat)
      returns (ok: bool, next: nat)
      requires preIndex < index <= |data| && TagOf(data[preIndex..]) == Some((fieldNum, wireType, index - preIndex))
      modifies this, device
      ensures device == old(device) || fresh(device)
      ensures Turned(skip, P.HandshakeFormat(skip), old(Value()), data, preIndex, next,
                     if ok then Some(Value()) else None)
    {
      hide IsRead, Turned, TagOf, ToInt64, ToInt32, Truncated, FieldAt, P.DecodeDevice;
      ghost var fmt := P.HandshakeFormat(skip);
      ghost var read;
      match fieldNum {
        case 1 =>
          var v;
          v, next := ReadBytes(skip, fmt.schema, data, preIndex, index, fieldNum, wireType);
          read, ok := v.Some?, v.Some?;
          if ok {
            version := v.value;
          }
        case 2 =>
          var v;
          v, next := ReadBytes(skip, fmt.schema, data, preIndex, index, fieldNum, wireType);
          read, ok := v.Some?, v.Some?;
          if ok {
            if device == null {
              device := new Device();
            }
            ok := device.UnmarshalVT(skip, v.value);
          }
        case 3 =>
          var v; ghost var raw;
          v, next, raw := ReadNumber(skip, fmt.schema, data, preIndex, index, fieldNum, wireType, false);
          read, ok := v.Some?, v.Some?;
          if ok {
            TruncatedReads(raw);
            port := v.value;
          }
        case _ =>
          var v;
          v, next := ReadUnknown(skip, fmt.schema, data, preIndex, fieldNum);
          read, ok := v.Some?, v.Some?;
          if ok {
            unknownFields := unknownFields + v.value;
          }
      }
      TurnedAt(skip, fmt, old(Value()), data, preIndex, next, if ok then Some(Value()) else None, read);
    }
  }

  /** The `Payload` oneof: at most one of the wrapped messages. */
  datatype Payload =
    | NoPayload
    | MessageOf(message: Message)
    | HandshakeOf(handshake: Handshake)
    | AnnounceOf(announce: Announce)
    | RequestOf(request: RequestMessage)

  method SizeOfMessage(m: Message, n: nat) returns (r: nat)
    requires P.MessageFits(m.Value())
    ensures |P.EncodeMessage(m.Value())| < TWO63 && r == n + |PutNested(2, P.EncodeMessage(m.Value()))|
  {
    P.MessageSizeIsExact(m.Value());
    P.NestedSizeIsExact(2, P.EncodeMessage(m.Value()));
    hide *;
    var l := m.SizeVT();
    r := AddNested(n, l);
  }

  method SizeOfHandshake(m: Handshake, n: nat) returns (r: nat)
    requires P.HandshakeFits(m.Value())
    ensures |P.EncodeHandshake(m.Value())| < TWO63 && r == n + |PutNested(3, P.EncodeHandshake(m.Value()))|
  {
    P.HandshakeSizeIsExact(m.Value());
    P.NestedSizeIsExact(3, P.EncodeHandshake(m.Value()));
    hide *;
    var l := m.SizeVT();
    r := AddNested(n, l);
  }

  method SizeOfAnnounce(m: Announce, n: nat) returns (r: nat)
    requires P.Fits(m.Value().unknown)
    ensures |P.EncodeAnnounce(m.Value())| < TWO63 && r == n + |PutNested(4, P.EncodeAnnounce(m.Value()))|
  {
    P.AnnounceSizeIsExact(m.Value());
    P.NestedSizeIsExact(4, P.EncodeAnnounce(m.Value()));
    hide *;
    var l := m.SizeVT();
    r := AddNested(n, l);
  }

  method SizeOfRequest(m: RequestMessage, n: nat) returns (r: nat)
    requires P.Fits(m.Value().unknown)
    ensures |P.EncodeRequest(m.Value())| < TWO63 && r == n + |PutNested(6, P.EncodeRequest(m.Value()))|
  {
    P.RequestSizeIsExact(m.Value());
    P.NestedSizeIsExact(6, P.EncodeRequest(m.Value()));
    hide *;
    var l := m.SizeVT();
    r := AddNested(n, l);
  }

  method MarshalMessage(m: Message, data: array<Byte>, i: nat, ghost before: Bytes, ghost body: Bytes,
                        ghost rest: Bytes)
    returns (j: nat)
    requires P.MessageFits(m.Value()) && |P.EncodeMessage(m.Value())| < TWO63
    requires |PutNested(2, P.EncodeMessage(m.Value()))| <= i <= data.Length && Filled(data[..], i, before, body, rest)
    modifies data
    ensures j == i - |PutNested(2, P.EncodeMessage(m.Value()))|
    ensures Filled(data[..], j, before, PutNested(2, P.EncodeMessage(m.Value())) + body, rest)
  {
    hide *;
    ghost var s, inner := data[..], P.EncodeMessage(m.Value());
    P.MessageSizeIsExact(m.Value());
    P.NestedSizeIsExact(2, inner);
    var l := m.MarshalToSizedBufferVT(data, i);
    FilledTwice(s, data[..], i, i - l, before, inner, body, rest);
    j := HeaderBefore(data, i - l, 2, l, before, inner, body, rest);
  }

  method MarshalHandshake(m: Handshake, data: array<Byte>, i: nat, ghost before: Bytes, ghost body: Bytes,
                          ghost rest: Bytes)
    returns (j: nat)
    requires P.HandshakeFits(m.Value()) && |P.EncodeHandshake(m.Value())| < TWO63
    requires |PutNested(3, P.EncodeHandshake(m.Value()))| <= i <= data.Length && Filled(data[..], i, before, body, rest)
    modifies data
    ensures j == i - |PutNested(3, P.EncodeHandshake(m.Value()))|
    ensures Filled(data[..], j, before, PutNested(3, P.EncodeHandshake(m.Value())) + body, rest)
  {
    hide *;
    ghost var s, inner := data[..], P.EncodeHandshake(m.Value());
    P.HandshakeSizeIsExact(m.Value());
    P.NestedSizeIsExact(3, inner);
    var l := m.MarshalToSizedBufferVT(data, i);
    FilledTwice(s, data[..], i, i - l, before, inner, body, rest);
    j := HeaderBefore(data, i - l, 3, l, before, inner, body, rest);
  }

  method MarshalAnnounce(m: Announce, data: array<Byte>, i: nat, ghost before: Bytes, ghost body: Bytes,
                         ghost rest: Bytes)
    returns (j: nat)
    requires P.Fits(m.Value().unknown) && |P.EncodeAnnounce(m.Value())| < TWO63
    requires |PutNested(4, P.EncodeAnnounce(m.Value()))| <= i <= data.Length && Filled(data[..], i, before, body, rest)
    modifies data
    ensures j == i - |PutNested(4, P.EncodeAnnounce(m.Value()))|
    ensures Filled(data[..], j, before, PutNested(4, P.EncodeAnnounce(m.Value())) + body, rest)
  {
    hide *;
    ghost var s, inner := data[..], P.EncodeAnnounce(m.Value());
    P.AnnounceSizeIsExact(m.Value());
    P.NestedSizeIsExact(4, inner);
    var l := m.MarshalToSizedBufferVT(data, i);
    FilledTwice(s, data[..], i, i - l, before, inner, body, rest);
    j := HeaderBefore(data, i - l, 4, l, before, inner, body, rest);
  }

  method MarshalRequest(m: RequestMessage, data: array<Byte>, i: nat, ghost before: Bytes, ghost body: Bytes,
                        ghost rest: Bytes)
    returns (j: nat)
    requires P.Fits(m.Value().unknown) && |P.EncodeRequest(m.Value())| < TWO63
    requires |PutNested(6, P.EncodeRequest(m.Value()))| <= i <= data.Length && Filled(data[..], i, before, body, rest)
    modifies data
    ensures j == i - |PutNested(6, P.EncodeRequest(m.Value()))|
    ensures Filled(data[..], j, before, PutNested(6, P.EncodeRequest(m.Value())) + body, rest)
  {
    hide *;
    ghost var s, inner := data[..], P.EncodeRequest(m.Value());
    P.RequestSizeIsExact(m.Value());
    P.NestedSizeIsExact(6, inner);
    var l := m.MarshalToSizedBufferVT(data, i);
    FilledTwice(s, data[..], i, i - l, before, inner, body, rest);
    j := HeaderBefore(data, i - l, 6, l, before, inner, body, rest);
  }

  ghost predicate PayloadIn(p: Payload, repr: set<object>)
    reads repr
  {
    match p
    case NoPayload => true
    case MessageOf(m) => m in repr
    case HandshakeOf(m) => m in repr && (m.device != null ==> m.device in repr)
    case AnnounceOf(m) => m in repr
    case RequestOf(m) => m in repr
  }

  ghost function PayloadValue(p: Payload, repr: set<object>): P.Payload
    requires PayloadIn(p, repr)
    reads repr
  {
    match p
    case NoPayload => P.NoPayload
    case MessageOf(m) => P.MessagePayload(m.Value())
    case HandshakeOf(m) => P.HandshakePayload(m.Value())
    case AnnounceOf(m) => P.AnnouncePayload(m.Value())
    case RequestOf(m) => P.RequestPayload(m.Value())
  }

  class Event {
    var created: Timestamp?
    var payload: Payload
    var unknownFields: Bytes

    /** The objects the event is made of. */
    ghost var Repr: set<object>

    ghost predicate Valid()
      reads this, Repr
    {
      this in Repr && (created != null ==> created in Repr) && PayloadIn(payload, Repr)
    }

    constructor ()
      ensures Valid() && Repr == {this} && Value() == P.NEW_EVENT && created == null
    {
      created, payload, unknownFields := null, NoPayload, [];
      Repr := {this};
    }

    ghost function Value(): P.Event
      requires Valid()
      reads this, Repr
    {
      P.Event(if created == null then None else Some(created.Value()), PayloadValue(payload, Repr), unknownFields)
    }

    method Reset()
      modifies this
      ensures Valid() && Repr == {this} && Value() == P.NEW_EVENT && created == null
    {
      created, payload, unknownFields := null, NoPayload, [];
      Repr := {this};
    }

    method SizePayload(n: nat) returns (r: nat)
      requires Valid() && P.PayloadFits(PayloadValue(payload, Repr))
      ensures r == n + |P.EncodePayload(PayloadValue(payload, Repr))|
    {
      hide PutNested, P.EncodeMessage, P.EncodeHandshake, P.EncodeAnnounce, P.EncodeRequest;
      match payload {
        case NoPayload => r := n;
        case MessageOf(m) => r := SizeOfMessage(m, n);
        case HandshakeOf(m) => r := SizeOfHandshake(m, n);
        case AnnounceOf(m) => r := SizeOfAnnounce(m, n);
        case RequestOf(m) => r := SizeOfRequest(m, n);
      }
    }

    method SizeVT() returns (n: nat)
      requires Valid() && P.EventFits(Value())
      ensures n == P.SizeEvent(Value()) == |P.EncodeEvent(Value())|
    {
      hide P.EncodePayload, P.NestedSize, PutNested, P.PayloadFits, P.SizeEvent, PayloadValue, PayloadIn;
      P.EventSizeIsExact(Value());
      n := 0;
      if created != null {
        P.TimestampSizeIsExact(created.Value());
        P.NestedSizeIsExact(1, P.EncodeTimestamp(created.Value()));
        var l := created.SizeVT();
        n := AddNested(n, l);
      }
      assert n == |P.EncodeCreated(Value().created)|;
      n := SizePayload(n);
      n := n + |unknownFields|;
    }

    /** Writes the wrapped message, its length and its tag, so that they end before `i`. */
    method MarshalPayload(data: array<Byte>, i: nat, ghost before: Bytes, ghost body: Bytes, ghost rest: Bytes)
      returns (j: nat)
      requires Valid() && data !in Repr && P.PayloadFits(PayloadValue(payload, Repr))
      requires |P.EncodePayload(PayloadValue(payload, Repr))| <= i <= data.Length
      requires Filled(data[..], i, before, body, rest)
      modifies data
      ensures j == i - |P.EncodePayload(PayloadValue(payload, Repr))|
      ensures Filled(data[..], j, before, P.EncodePayload(PayloadValue(payload, Repr)) + body, rest)
    {
      hide Filled, PutNested, P.EncodeMessage, P.EncodeHandshake, P.EncodeAnnounce, P.EncodeRequest,
        P.SizeMessage, P.SizeHandshake, P.SizeAnnounce, P.SizeRequest, P.MessageFits, P.HandshakeFits, P.Fits;
      P.PayloadSizeIsExact(PayloadValue(payload, Repr));
      match payload {
        case NoPayload =>
          j := i;
          assert [] + body == body;
        case MessageOf(m) => j := MarshalMessage(m, data, i, before, body, rest);
        case HandshakeOf(m) => j := MarshalHandshake(m, data, i, before, body, rest);
        case AnnounceOf(m) => j := MarshalAnnounce(m, data, i, before, body, rest);
        case RequestOf(m) => j := MarshalRequest(m, data, i, before, body, rest);
      }
    }

    method MarshalCreated(data: array<Byte>, i: nat, ghost before: Bytes, ghost body: Bytes, ghost rest: Bytes)
      returns (j: nat)
      requires Valid() && data !in Repr && (created != null ==> P.Fits(created.Value().unknown))
      requires |P.EncodeCreated(Value().created)| <= i <= data.Length
      requires Filled(data[..], i, before, body, rest)
      modifies data
      ensures j == i - |P.EncodeCreated(Value().created)|
      ensures Filled(data[..], j, before, P.EncodeCreated(Value().created) + body, rest)
    {
      hide Filled, PutNested, P.EncodeTimestamp, PayloadIn, PayloadValue;
      j := i;
      if created != null {
        ghost var s, inner := data[..], P.EncodeTimestamp(created.Value());
        P.TimestampSizeIsExact(created.Value());
        P.NestedSizeIsExact(1, inner);
        var l := created.MarshalToSizedBufferVT(data, i);
        FilledTwice(s, data[..], i, i - l, before, inner, body, rest);
        j := HeaderBefore(data, i - l, 1, l, before, inner, body, rest);
      } else {
        assert [] + body == body;
      }
    }

    /** A buffer of `SizeVT` bytes is filled down to its first cell. */
    method MarshalVT() returns (data: array<Byte>)
      requires Valid() && P.EventFits(Value())
      ensures fresh(data) && data[..] == P.EncodeEvent(Value())
    {
      hide *;
      var size := SizeVT();
      data := new Byte[size];
      ghost var before := data[..];
      var n := MarshalToSizedBufferVT(data, size);
      FilledWhole(data[..], before, P.EncodeEvent(Value()));
    }

    method MarshalToSizedBufferVT(data: array<Byte>, end: nat) returns (size: nat)
      requires Valid() && data !in Repr && P.EventFits(Value()) && P.SizeEvent(Value()) <= end <= data.Length
      modifies data
      ensures size == P.SizeEvent(Value())
      ensures Filled(data[..], end - size, old(data[..]), P.EncodeEvent(Value()), old(data[..])[end..])
    {
      hide Filled, P.EncodeCreated, P.EncodePayload, P.SizeEvent, P.PayloadFits, PayloadValue, PayloadIn, Valid;
      ghost var m, before := Value(), data[..];
      ghost var rest := before[end..];
      P.EventSizeIsExact(m);
      FilledEmpty(before, end);
      var i := CopyBefore(data, end, unknownFields, before, [], rest);
      assert unknownFields + [] == unknownFields;
      i := MarshalPayload(data, i, before, unknownFields, rest);
      i := MarshalCreated(data, i, before, P.EncodePayload(m.payload) + unknownFields, rest);
      size := end - i;
    }

    method UnmarshalVT(skip: Skipper, data: Bytes) returns (ok: bool)
      requires Valid()
      modifies Repr
      ensures Valid() && fresh(Repr - old(Repr))
      ensures ok == P.DecodeEvent(skip, old(Value()), data).Some?
      ensures ok ==> Some(Value()) == P.DecodeEvent(skip, old(Value()), data)
    {
      ghost var fmt := P.EventFormat(skip);
      var l, index := |data|, 0;
      assert data[0..] == data;
      hide Decode, IsRead, Turned, TagOf, FieldAt, Value, Valid;
      while index < l
        invariant index <= l
        invariant Valid() && fresh(Repr - old(Repr))
        invariant Decode(skip, fmt, Value(), data[index..]) == P.DecodeEvent(skip, old(Value()), data)
      {
        var preIndex := index;
        ghost var before := Value();
        var fieldNum, wireType;
        fieldNum, wireType, index, ok := ReadTag(skip, fmt.schema, data, preIndex);
        if ok {
          ok, index := SetField(skip, data, preIndex, index, fieldNum, wireType);
        } else {
          TurnedAt(skip, fmt, before, data, preIndex, index, None, false);
        }
        DecodeStep(skip, fmt, before, data, preIndex, index, if ok then Some(Value()) else None);
        if !ok {
          return;
        }
      }
      assert index == l;
      ok := true;
    }

    method SetField(skip: Skipper, data: Bytes, preIndex: nat, index: nat, fieldNum: Int32, wireType: nat)
      returns (ok: bool, next: nat)
      requires preIndex < index <= |data| && TagOf(data[preIndex..]) == Some((fieldNum, wireType, index - preIndex))
      requires Valid()
      modifies Repr
      ensures Valid() && fresh(Repr - old(Repr))
      ensures Turned(skip, P.EventFormat(skip), old(Value()), data, preIndex, next, if ok then Some(Value()) else None)
    {
      hide IsRead, Turned, TagOf, FieldAt, PayloadIn, PayloadValue,
        P.DecodeTimestamp, P.DecodeMessage, P.DecodeHandshake, P.DecodeAnnounce, P.DecodeRequest;
      ghost var fmt := P.EventFormat(skip);
      var v: Option<Bytes>;
      if fieldNum !in {1, 2, 3, 4, 6} {
        v, next := ReadUnknown(skip, fmt.schema, data, preIndex, fieldNum);
        ok := v.Some?;
        if ok {
          KeepUnknown(v.value);
        }
        TurnedAt(skip, fmt, old(Value()), data, preIndex, next, if ok then Some(Value()) else None, v.Some?);
        return;
      }
      v, next := ReadBytes(skip, fmt.schema, data, preIndex, index, fieldNum, wireType);
      ok := v.Some?;
      if ok {
        match fieldNum {
          case 1 => ok := MergeCreated(skip, v.value);
          case 2 => ok := MergeMessage(skip, v.value);
          case 3 => ok := MergeHandshake(skip, v.value);
          case 4 => ok := MergeAnnounce(skip, v.value);
          case _ => ok := MergeRequest(skip, v.value);
        }
      }
      TurnedAt(skip, fmt, old(Value()), data, preIndex, next, if ok then Some(Value()) else None, v.Some?);
    }

    method KeepUnknown(bytes: Bytes)
      requires Valid()
      modifies this`unknownFields
      ensures Valid() && Value() == old(Value()).(unknown := old(Value()).unknown + bytes)
    {
      unknownFields := unknownFields + bytes;
    }

    method MergeCreated(skip: Skipper, bytes: Bytes) returns (ok: bool)
      requires Valid()
      modifies Repr
      ensures Valid() && fresh(Repr - old(Repr))
      ensures P.MergeEvent(skip, old(Value()), BytesField(1, bytes)) == if ok then Some(Value()) else None
    {
      hide P.DecodeTimestamp;
      if created == null {
        created := new Timestamp();
        Repr := Repr + {created};
      }
      ok := created.UnmarshalVT(skip, bytes);
    }

    method MergeMessage(skip: Skipper, bytes: Bytes) returns (ok: bool)
      requires Valid()
      modifies Repr
      ensures Valid() && fresh(Repr - old(Repr))
      ensures P.MergeEvent(skip, old(Value()), BytesField(2, bytes)) == if ok then Some(Value()) else None
    {
      hide P.DecodeMessage;
      if payload.MessageOf? {
        ok := payload.message.UnmarshalVT(skip, bytes);
      } else {
        var m := new Message();
        ok := m.UnmarshalVT(skip, bytes);
        if ok {
          payload := MessageOf(m);
          Repr := Repr + {m};
        }
      }
    }

    method MergeHandshake(skip: Skipper, bytes: Bytes) returns (ok: bool)
      requires Valid()
      modifies Repr
      ensures Valid() && fresh(Repr - old(Repr))
      ensures P.MergeEvent(skip, old(Value()), BytesField(3, bytes)) == if ok then Some(Value()) else None
    {
      hide P.DecodeHandshake;
      if payload.HandshakeOf? {
        ok := payload.handshake.UnmarshalVT(skip, bytes);
        Repr := Repr + (if payload.handshake.device == null then {} else {payload.handshake.device});
      } else {
        var m := new Handshake();
        ok := m.UnmarshalVT(skip, bytes);
        if ok {
          payload := HandshakeOf(m);
          Repr := Repr + {m} + (if m.device == null then {} else {m.device});
        }
      }
    }

    method MergeAnnounce(skip: Skipper, bytes: Bytes) returns (ok: bool)
      requires Valid()
      modifies Repr
      ensures Valid() && fresh(Repr - old(Repr))
      ensures P.MergeEvent(skip, old(Value()), BytesField(4, bytes)) == if ok then Some(Value()) else None
    {
      hide P.DecodeAnnounce;
      if payload.AnnounceOf? {
        ok := payload.announce.UnmarshalVT(skip, bytes);
      } else {
        var m := new Announce();
        ok := m.UnmarshalVT(skip, bytes);
        if ok {
          payload := AnnounceOf(m);
          Repr := Repr + {m};
        }
      }
    }

    method MergeRequest(skip: Skipper, bytes: Bytes) returns (ok: bool)
      requires Valid()
      modifies Repr
      ensures Valid() && fresh(Repr - old(Repr))
      ensures P.MergeEvent(skip, old(Value()), BytesField(6, bytes)) == if ok then Some(Value()) else None
    {
      hide P.DecodeRequest;
      if payload.RequestOf? {
        ok := payload.request.UnmarshalVT(skip, bytes);
      } else {
        var m := new RequestMessage();
        ok := m.UnmarshalVT(skip, bytes);
        if ok {
          payload := RequestOf(m);
          Repr := Repr + {m};
        }
      }
    }
  }
}
