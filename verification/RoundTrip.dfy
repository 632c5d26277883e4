/** Encoding and decoding are inverse, and decoding encoded bytes into a message lays the one over the other. */
module RoundTrip {
  import opened Wrappers
  import opened Machine
  import opened Wire
  import opened Proto

  // ---------------------------------------------------------------- what merging means

  /** A number that is zero is not on the wire and leaves the old one. */
  function Over<T(==)>(under: T, over: T, zero: T): T {
    if over == zero then under else over
  }

  function OverTimestamp(a: Timestamp, b: Timestamp): Timestamp {
    Timestamp(Over(a.seconds, b.seconds, 0), Over(a.nanos, b.nanos, 0), a.unknown + b.unknown)
  }

  function OverMessage(a: Message, b: Message): Message {
    Message(Over(a.id, b.id, 0), Over(a.contentLength, b.contentLength, 0), Over(a.mime, b.mime, 0),
            Over(a.contentHash, b.contentHash, 0), Over(a.name, b.name, []), Over(a.batchID, b.batchID, 0),
            Over(a.batchTotal, b.batchTotal, 0), a.unknown + b.unknown)
  }

  function OverAnnounce(a: Announce, b: Announce): Announce {
    Announce(Over(a.id, b.id, 0), Over(a.contentLength, b.contentLength, 0), Over(a.mime, b.mime, 0),
             Over(a.contentHash, b.contentHash, 0), Over(a.batchID, b.batchID, 0),
             Over(a.batchTotal, b.batchTotal, 0), a.unknown + b.unknown)
  }

  function OverRequest(a: Request, b: Request): Request {
    Request(Over(a.id, b.id, 0), a.unknown + b.unknown)
  }

  function OverDevice(a: Device, b: Device): Device {
    Device(Over(a.name, b.name, []), Over(a.arch, b.arch, []), Over(a.id, b.id, 0), a.unknown + b.unknown)
  }

  function OverHandshake(a: Handshake, b: Handshake): Handshake {
    Handshake(Over(a.version, b.version, []),
              if b.device.None? then a.device
              else Some(OverDevice(if a.device.Some? then a.device.value else NEW_DEVICE, b.device.value)),
              Over(a.port, b.port, 0), a.unknown + b.unknown)
  }

  /** The same case merges, another case replaces. */
  function OverPayload(a: Payload, b: Payload): Payload {
    match b
    case NoPayload => a
    case MessagePayload(m) => MessagePayload(OverMessage(if a.MessagePayload? then a.message else NEW_MESSAGE, m))
    case HandshakePayload(m) =>
      HandshakePayload(OverHandshake(if a.HandshakePayload? then a.handshake else NEW_HANDSHAKE, m))
    case AnnouncePayload(m) => AnnouncePayload(OverAnnounce(if a.AnnouncePayload? then a.announce else NEW_ANNOUNCE, m))
    case RequestPayload(m) => RequestPayload(OverRequest(if a.RequestPayload? then a.request else NEW_REQUEST, m))
  }

  function OverEvent(a: Event, b: Event): Event {
    Event(if b.created.None? then a.created
          else Some(OverTimestamp(if a.created.Some? then a.created.value else NEW_TIMESTAMP, b.created.value)),
          OverPayload(a.payload, b.payload), a.unknown + b.unknown)
  }

  lemma NothingBefore(b: Bytes)
    ensures [] + b == b
  {
  }

  lemma OverNewPayload(b: Payload)
    ensures OverPayload(NoPayload, b) == b
  {
    match b
    case NoPayload =>
    case MessagePayload(m) => NothingBefore(m.unknown);
    case HandshakePayload(m) =>
      NothingBefore(m.unknown);
      if m.device.Some? {
        NothingBefore(m.device.value.unknown);
      }
    case AnnouncePayload(m) => NothingBefore(m.unknown);
    case RequestPayload(m) => NothingBefore(m.unknown);
  }

  /** Laying a message over a new one gives that message. */
  lemma OverNewEvent(b: Event)
    ensures OverEvent(NEW_EVENT, b) == b
  {
    OverNewPayload(b.payload);
    NothingBefore(b.unknown);
    if b.created.Some? {
      NothingBefore(b.created.value.unknown);
    }
  }

  // ---------------------------------------------------------------- messages whose unknown bytes parse

  ghost predicate PayloadParses(skip: Skipper, p: Payload) {
    match p
    case NoPayload => true
    case MessagePayload(m) => AllUnknown(skip, MESSAGE_SCHEMA, m.unknown)
    case HandshakePayload(m) => HandshakeParses(skip, m)
    case AnnouncePayload(m) => AllUnknown(skip, ANNOUNCE_SCHEMA, m.unknown)
    case RequestPayload(m) => AllUnknown(skip, REQUEST_SCHEMA, m.unknown)
  }

  ghost predicate HandshakeParses(skip: Skipper, m: Handshake) {
    && AllUnknown(skip, HANDSHAKE_SCHEMA, m.unknown)
    && (m.device.Some? ==> AllUnknown(skip, DEVICE_SCHEMA, m.device.value.unknown))
  }

  ghost predicate EventParses(skip: Skipper, m: Event) {
    && AllUnknown(skip, EVENT_SCHEMA, m.unknown)
    && (m.created.Some? ==> AllUnknown(skip, TIMESTAMP_SCHEMA, m.created.value.unknown))
    && PayloadParses(skip, m.payload)
  }

  // ---------------------------------------------------------------- decoding what was encoded

  lemma AppendUnknown(u: Bytes, a: Bytes, b: Bytes)
    ensures u + [] == u && (u + a) + b == u + (a + b)
  {
  }

  /** A format that appends what it does not know to a part of the message keeps it in order. */
  lemma AppendingKeepsOrder<M(!new)>(fmt: Format<M>, unknown: M -> Bytes, withUnknown: (M, Bytes) -> M)
    requires forall m: M :: withUnknown(m, unknown(m)) == m
    requires forall m: M, u: Bytes :: unknown(withUnknown(m, u)) == u
    requires forall m: M, u: Bytes, v: Bytes :: withUnknown(withUnknown(m, u), v) == withUnknown(m, v)
    requires forall m: M, u: Bytes :: fmt.keep(m, u) == withUnknown(m, unknown(m) + u)
    ensures KeepsInOrder(fmt)
  {
    forall m: M, a: Bytes, b: Bytes
      ensures fmt.keep(m, []) == m && fmt.keep(fmt.keep(m, a), b) == fmt.keep(m, a + b)
    {
      AppendUnknown(unknown(m), a, b);
    }
  }

  lemma TimestampOver(skip: Skipper, a: Timestamp, b: Timestamp)
    requires AllUnknown(skip, TIMESTAMP_SCHEMA, b.unknown)
    ensures DecodeTimestamp(skip, a, EncodeTimestamp(b)) == Some(OverTimestamp(a, b))
  {
    AppendingKeepsOrder(TimestampFormat(), (m: Timestamp) => m.unknown, (m: Timestamp, u: Bytes) => m.(unknown := u));
    SignedRoundTrip(b.seconds);
    SignedRoundTrip(b.nanos);
    var fmt := TimestampFormat();
    var r2 := PutNumber(2, ToUint64(b.nanos)) + b.unknown;
    var m1 := a.(seconds := Over(a.seconds, b.seconds, 0));
    var m2 := m1.(nanos := Over(a.nanos, b.nanos, 0));
    DecodeNumber(skip, fmt, a, 1, ToUint64(b.seconds), r2, m1);
    DecodeNumber(skip, fmt, m1, 2, ToUint64(b.nanos), b.unknown, m2);
    DecodeUnknown(skip, fmt, m2, b.unknown);
  }

  lemma MessageNumber(skip: Skipper, m: Message, num: nat, v: Uint64, rest: Bytes, next: Message)
    requires 1 <= num <= 7 && num != 5
    requires if v == 0 then next == m else MergeMessage(m, NumberField(num, v)) == Some(next)
    ensures DecodeMessage(skip, m, PutNumber(num, v) + rest) == DecodeMessage(skip, next, rest)
  {
    DecodeNumber(skip, MessageFormat(), m, num, v, rest, next);
  }

  lemma MessageFrontOver(skip: Skipper, a: Message, b: Message, rest: Bytes)
    ensures DecodeMessage(skip, a, PutNumber(1, ToUint64(b.id)) + (PutNumber(2, b.contentLength) + rest))
         == DecodeMessage(skip, a.(id := Over(a.id, b.id, 0),
              contentLength := Over(a.contentLength, b.contentLength, 0)), rest)
  {
    hide PutNumber, DecodeMessage, ToInt64, ToInt32, ToUint64;
    SignedRoundTrip(b.id);
    var m1 := a.(id := Over(a.id, b.id, 0));
    var m2 := m1.(contentLength := Over(a.contentLength, b.contentLength, 0));
    MessageNumber(skip, a, 1, ToUint64(b.id), PutNumber(2, b.contentLength) + rest, m1);
    MessageNumber(skip, m1, 2, b.contentLength, rest, m2);
  }

  lemma MessageMiddleOver(skip: Skipper, a: Message, b: Message, rest: Bytes)
    ensures DecodeMessage(skip, a, PutNumber(3, ToUint64(b.mime)) + (PutNumber(4, b.contentHash) + rest))
         == DecodeMessage(skip, a.(mime := Over(a.mime, b.mime, 0),
              contentHash := Over(a.contentHash, b.contentHash, 0)), rest)
  {
    hide PutNumber, DecodeMessage, ToInt64, ToInt32, ToUint64;
    SignedRoundTrip(b.mime);
    var m3 := a.(mime := Over(a.mime, b.mime, 0));
    var m4 := m3.(contentHash := Over(a.contentHash, b.contentHash, 0));
    MessageNumber(skip, a, 3, ToUint64(b.mime), PutNumber(4, b.contentHash) + rest, m3);
    MessageNumber(skip, m3, 4, b.contentHash, rest, m4);
  }

  lemma MessageBackOver(skip: Skipper, a: Message, b: Message)
    requires MessageFits(b) && AllUnknown(skip, MESSAGE_SCHEMA, b.unknown)
    ensures DecodeMessage(skip, a, PutBytes(5, b.name) + (PutNumber(6, ToUint64(b.batchID))
              + (PutNumber(7, b.batchTotal) + b.unknown)))
         == Some(a.(name := Over(a.name, b.name, []), batchID := Over(a.batchID, b.batchID, 0),
              batchTotal := Over(a.batchTotal, b.batchTotal, 0), unknown := a.unknown + b.unknown))
  {
    hide PutNumber, PutBytes, KeepsInOrder, Decode, ToInt64, ToInt32, ToUint64, AllUnknown;
    AppendingKeepsOrder(MessageFormat(), (m: Message) => m.unknown, (m: Message, u: Bytes) => m.(unknown := u));
    SignedRoundTrip(b.batchID);
    var fmt := MessageFormat();
    var r7 := PutNumber(7, b.batchTotal) + b.unknown;
    var r6 := PutNumber(6, ToUint64(b.batchID)) + r7;
    var m5 := a.(name := Over(a.name, b.name, []));
    var m6 := m5.(batchID := Over(a.batchID, b.batchID, 0));
    var m7 := m6.(batchTotal := Over(a.batchTotal, b.batchTotal, 0));
    DecodeBytes(skip, fmt, a, 5, b.name, r6, m5);
    DecodeNumber(skip, fmt, m5, 6, ToUint64(b.batchID), r7, m6);
    DecodeNumber(skip, fmt, m6, 7, b.batchTotal, b.unknown, m7);
    DecodeUnknown(skip, fmt, m7, b.unknown);
  }

  lemma MessageOver(skip: Skipper, a: Message, b: Message)
    requires MessageFits(b) && AllUnknown(skip, MESSAGE_SCHEMA, b.unknown)
    ensures DecodeMessage(skip, a, EncodeMessage(b)) == Some(OverMessage(a, b))
  {
    hide PutNumber, PutBytes, DecodeMessage, AllUnknown, ToUint64;
    var r5 := PutBytes(5, b.name) + (PutNumber(6, ToUint64(b.batchID)) + (PutNumber(7, b.batchTotal) + b.unknown));
    var m2 := a.(id := Over(a.id, b.id, 0), contentLength := Over(a.contentLength, b.contentLength, 0));
    var m4 := m2.(mime := Over(a.mime, b.mime, 0), contentHash := Over(a.contentHash, b.contentHash, 0));
    MessageFrontOver(skip, a, b, PutNumber(3, ToUint64(b.mime)) + (PutNumber(4, b.contentHash) + r5));
    MessageMiddleOver(skip, m2, b, r5);
    MessageBackOver(skip, m4, b);
  }

  lemma AnnounceNumber(skip: Skipper, m: Announce, num: nat, v: Uint64, rest: Bytes, next: Announce)
    requires 1 <= num <= 6
    requires if v == 0 then next == m else MergeAnnounce(m, NumberField(num, v)) == Some(next)
    ensures DecodeAnnounce(skip, m, PutNumber(num, v) + rest) == DecodeAnnounce(skip, next, rest)
  {
    DecodeNumber(skip, AnnounceFormat(), m, num, v, rest, next);
  }

  lemma AnnounceFrontOver(skip: Skipper, a: Announce, b: Announce, rest: Bytes)
    ensures DecodeAnnounce(skip, a, PutNumber(1, ToUint64(b.id)) + (PutNumber(2, b.contentLength)
              + (PutNumber(3, ToUint64(b.mime)) + rest)))
         == DecodeAnnounce(skip, a.(id := Over(a.id, b.id, 0),
              contentLength := Over(a.contentLength, b.contentLength, 0), mime := Over(a.mime, b.mime, 0)), rest)
  {
    hide PutNumber, DecodeAnnounce, ToInt64, ToInt32, ToUint64;
    SignedRoundTrip(b.id);
    SignedRoundTrip(b.mime);
    var r3 := PutNumber(3, ToUint64(b.mime)) + rest;
    var r2 := PutNumber(2, b.contentLength) + r3;
    var m1 := a.(id := Over(a.id, b.id, 0));
    var m2 := m1.(contentLength := Over(a.contentLength, b.contentLength, 0));
    var m3 := m2.(mime := Over(a.mime, b.mime, 0));
    AnnounceNumber(skip, a, 1, ToUint64(b.id), r2, m1);
    AnnounceNumber(skip, m1, 2, b.contentLength, r3, m2);
    AnnounceNumber(skip, m2, 3, ToUint64(b.mime), rest, m3);
  }

  lemma AnnounceBackOver(skip: Skipper, a: Announce, b: Announce)
    requires AllUnknown(skip, ANNOUNCE_SCHEMA, b.unknown)
    ensures DecodeAnnounce(skip, a, PutNumber(4, b.contentHash) + (PutNumber(5, ToUint64(b.batchID))
              + (PutNumber(6, b.batchTotal) + b.unknown)))
         == Some(a.(contentHash := Over(a.contentHash, b.contentHash, 0), batchID := Over(a.batchID, b.batchID, 0),
              batchTotal := Over(a.batchTotal, b.batchTotal, 0), unknown := a.unknown + b.unknown))
  {
    hide PutNumber, KeepsInOrder, Decode, ToInt64, ToInt32, ToUint64, AllUnknown;
    AppendingKeepsOrder(AnnounceFormat(), (m: Announce) => m.unknown, (m: Announce, u: Bytes) => m.(unknown := u));
    SignedRoundTrip(b.batchID);
    var fmt := AnnounceFormat();
    var r6 := PutNumber(6, b.batchTotal) + b.unknown;
    var r5 := PutNumber(5, ToUint64(b.batchID)) + r6;
    var m4 := a.(contentHash := Over(a.contentHash, b.contentHash, 0));
    var m5 := m4.(batchID := Over(a.batchID, b.batchID, 0));
    var m6 := m5.(batchTotal := Over(a.batchTotal, b.batchTotal, 0));
    DecodeNumber(skip, fmt, a, 4, b.contentHash, r5, m4);
    DecodeNumber(skip, fmt, m4, 5, ToUint64(b.batchID), r6, m5);
    DecodeNumber(skip, fmt, m5, 6, b.batchTotal, b.unknown, m6);
    DecodeUnknown(skip, fmt, m6, b.unknown);
  }

  lemma AnnounceOver(skip: Skipper, a: Announce, b: Announce)
    requires AllUnknown(skip, ANNOUNCE_SCHEMA, b.unknown)
    ensures DecodeAnnounce(skip, a, EncodeAnnounce(b)) == Some(OverAnnounce(a, b))
  {
    hide PutNumber, DecodeAnnounce, AllUnknown, ToUint64;
    AnnounceFrontOver(skip, a, b, PutNumber(4, b.contentHash) + (PutNumber(5, ToUint64(b.batchID))
      + (PutNumber(6, b.batchTotal) + b.unknown)));
    AnnounceBackOver(skip, a.(id := Over(a.id, b.id, 0), contentLength := Over(a.contentLength, b.contentLength, 0),
      mime := Over(a.mime, b.mime, 0)), b);
  }

  lemma RequestOver(skip: Skipper, a: Request, b: Request)
    requires AllUnknown(skip, REQUEST_SCHEMA, b.unknown)
    ensures DecodeRequest(skip, a, EncodeRequest(b)) == Some(OverRequest(a, b))
  {
    AppendingKeepsOrder(RequestFormat(), (m: Request) => m.unknown, (m: Request, u: Bytes) => m.(unknown := u));
    SignedRoundTrip(b.id);
    var m1 := a.(id := Over(a.id, b.id, 0));
    DecodeNumber(skip, RequestFormat(), a, 1, ToUint64(b.id), b.unknown, m1);
    DecodeUnknown(skip, RequestFormat(), m1, b.unknown);
  }

  lemma DeviceOver(skip: Skipper, a: Device, b: Device)
    requires DeviceFits(b) && AllUnknown(skip, DEVICE_SCHEMA, b.unknown)
    ensures DecodeDevice(skip, a, EncodeDevice(b)) == Some(OverDevice(a, b))
  {
    hide PutNumber, PutBytes, KeepsInOrder, Decode, ToInt64, ToInt32, ToUint64;
    AppendingKeepsOrder(DeviceFormat(), (m: Device) => m.unknown, (m: Device, u: Bytes) => m.(unknown := u));
    SignedRoundTrip(b.id);
    var fmt := DeviceFormat();
    var r3 := PutNumber(3, ToUint64(b.id)) + b.unknown;
    var r2 := PutBytes(2, b.arch) + r3;
    var m1 := a.(name := Over(a.name, b.name, []));
    var m2 := m1.(arch := Over(a.arch, b.arch, []));
    var m3 := m2.(id := Over(a.id, b.id, 0));
    DecodeBytes(skip, fmt, a, 1, b.name, r2, m1);
    DecodeBytes(skip, fmt, m1, 2, b.arch, r3, m2);
    DecodeNumber(skip, fmt, m2, 3, ToUint64(b.id), b.unknown, m3);
    DecodeUnknown(skip, fmt, m3, b.unknown);
  }

  lemma HandshakeOver(skip: Skipper, a: Handshake, b: Handshake)
    requires HandshakeFits(b) && HandshakeParses(skip, b)
    ensures DecodeHandshake(skip, a, EncodeHandshake(b)) == Some(OverHandshake(a, b))
  {
    hide PutNumber, PutBytes, PutNested, KeepsInOrder, Decode;
    AppendingKeepsOrder(HandshakeFormat(skip), (m: Handshake) => m.unknown,
                        (m: Handshake, u: Bytes) => m.(unknown := u));
    var fmt := HandshakeFormat(skip);
    var r3 := PutNumber(3, b.port) + b.unknown;
    var r2 := EncodeDeviceField(b.device) + r3;
    var whole := OverHandshake(a, b);
    var m1 := a.(version := whole.version);
    var m2 := m1.(device := whole.device);
    var m3 := m2.(port := whole.port);
    DecodeBytes(skip, fmt, a, 1, b.version, r2, m1);
    if b.device.Some? {
      DeviceOver(skip, if a.device.Some? then a.device.value else NEW_DEVICE, b.device.value);
      DeviceSizeIsExact(b.device.value);
      DecodeNested(skip, fmt, m1, 2, EncodeDevice(b.device.value), r3);
    } else {
      assert r2 == r3;
    }
    DecodeNumber(skip, fmt, m2, 3, b.port, b.unknown, m3);
    DecodeUnknown(skip, fmt, m3, b.unknown);
  }

  function PayloadNumber(p: Payload): nat
    requires !p.NoPayload?
  {
    match p
    case MessagePayload(_) => 2
    case HandshakePayload(_) => 3
    case AnnouncePayload(_) => 4
    case RequestPayload(_) => 6
  }

  function PayloadBody(p: Payload): Bytes
    requires PayloadFits(p) && !p.NoPayload?
  {
    match p
    case MessagePayload(m) => EncodeMessage(m)
    case HandshakePayload(m) => EncodeHandshake(m)
    case AnnouncePayload(m) => EncodeAnnounce(m)
    case RequestPayload(m) => EncodeRequest(m)
  }

  /** The field a payload is written as merges like the payload itself. */
  lemma PayloadMerges(skip: Skipper, a: Event, p: Payload)
    requires PayloadFits(p) && PayloadParses(skip, p) && !p.NoPayload?
    ensures |PayloadBody(p)| < TWO63 && EncodePayload(p) == PutNested(PayloadNumber(p), PayloadBody(p))
    ensures MergeEvent(skip, a, BytesField(PayloadNumber(p), PayloadBody(p)))
         == Some(a.(payload := OverPayload(a.payload, p)))
  {
    hide PutNested, PutNumber, PutBytes, AllUnknown, OverMessage, OverAnnounce, OverRequest, OverHandshake,
      DecodeMessage, DecodeHandshake, DecodeAnnounce, DecodeRequest, EncodeMessage, EncodeHandshake, EncodeAnnounce,
      EncodeRequest, SizeMessage, SizeHandshake, SizeAnnounce, SizeRequest, HandshakeFits, MessageFits, HandshakeParses;
    PayloadSizeIsExact(p);
    match p
    case MessagePayload(m) =>
      MessageOver(skip, if a.payload.MessagePayload? then a.payload.message else NEW_MESSAGE, m);
    case HandshakePayload(m) =>
      HandshakeOver(skip, if a.payload.HandshakePayload? then a.payload.handshake else NEW_HANDSHAKE, m);
    case AnnouncePayload(m) =>
      AnnounceOver(skip, if a.payload.AnnouncePayload? then a.payload.announce else NEW_ANNOUNCE, m);
    case RequestPayload(m) =>
      RequestOver(skip, if a.payload.RequestPayload? then a.payload.request else NEW_REQUEST, m);
  }

  lemma PayloadOver(skip: Skipper, a: Event, p: Payload, rest: Bytes)
    requires PayloadFits(p) && PayloadParses(skip, p)
    ensures DecodeEvent(skip, a, EncodePayload(p) + rest) ==
      DecodeEvent(skip, a.(payload := OverPayload(a.payload, p)), rest)
  {
    if p.NoPayload? {
      assert EncodePayload(p) + rest == rest;
    } else {
      hide PutNested, Decode, EncodePayload, PayloadParses, OverPayload, MergeEvent, PayloadBody;
      PayloadMerges(skip, a, p);
      DecodeNested(skip, EventFormat(skip), a, PayloadNumber(p), PayloadBody(p), rest);
    }
  }

  /** Decoding an encoded event into another lays it over that one. */
  lemma EventOver(skip: Skipper, a: Event, b: Event)
    requires EventFits(b) && EventParses(skip, b)
    ensures DecodeEvent(skip, a, EncodeEvent(b)) == Some(OverEvent(a, b))
  {
    hide PutNested, KeepsInOrder, EncodePayload, PayloadParses, Decode;
    AppendingKeepsOrder(EventFormat(skip), (m: Event) => m.unknown, (m: Event, u: Bytes) => m.(unknown := u));
    var fmt := EventFormat(skip);
    var whole := OverEvent(a, b);
    var m1 := a.(created := whole.created);
    var m2 := m1.(payload := whole.payload);
    var r1 := EncodePayload(b.payload) + b.unknown;
    if b.created.Some? {
      TimestampOver(skip, if a.created.Some? then a.created.value else NEW_TIMESTAMP, b.created.value);
      TimestampSizeIsExact(b.created.value);
      DecodeNested(skip, fmt, a, 1, EncodeTimestamp(b.created.value), r1);
    } else {
      assert EncodeEvent(b) == r1;
    }
    PayloadOver(skip, m1, b.payload, b.unknown);
    DecodeUnknown(skip, fmt, m2, b.unknown);
  }

  /** Unmarshalling a marshalled event into a new one gives the event. */
  lemma EventRoundTrip(skip: Skipper, m: Event)
    requires EventFits(m) && EventParses(skip, m)
    ensures DecodeEvent(skip, NEW_EVENT, EncodeEvent(m)) == Some(m)
  {
    EventOver(skip, NEW_EVENT, m);
    OverNewEvent(m);
  }

  /** Two events written into one buffer are read as the second laid over the first: the last number wins,
      created times and payloads of one case merge, a payload of another case replaces. */
  lemma EventConcat(skip: Skipper, a: Event, b: Event)
    requires EventFits(a) && EventParses(skip, a) && EventFits(b) && EventParses(skip, b)
    ensures DecodeEvent(skip, NEW_EVENT, EncodeEvent(a) + EncodeEvent(b)) == Some(OverEvent(a, b))
  {
    EventRoundTrip(skip, a);
    EventOver(skip, a, b);
    DecodeConcat(skip, EventFormat(skip), NEW_EVENT, EncodeEvent(a), EncodeEvent(b));
  }

  // ---------------------------------------------------------------- what was decoded can be encoded

  /** A property that merging any field keeps is one that decoding any bytes keeps. */
  lemma {:induction false} DecodeKeeps<M(!new)>(skip: Skipper, fmt: Format<M>, ok: M -> bool, m: M, s: Bytes)
    requires ok(m)
    requires forall m: M, f: Field :: ok(m) && fmt.merge(m, f).Some? ==> ok(fmt.merge(m, f).value)
    requires forall m: M, t: Bytes :: ok(m) && IsUnknown(skip, fmt.schema, t) ==>
      ok(fmt.keep(m, UnknownBytes(skip, fmt.schema, t)))
    ensures Decode(skip, fmt, m, s).Some? ==> ok(Decode(skip, fmt, m, s).value)
    decreases |s|
  {
    if s != [] && NextField(skip, fmt.schema, s).Some? {
      var (field, n) := NextField(skip, fmt.schema, s).value;
      if field.UnknownField? {
        assert IsUnknown(skip, fmt.schema, s) && UnknownBytes(skip, fmt.schema, s) == field.bytes;
      }
      if Merged(fmt, m, field).Some? {
        DecodeKeeps(skip, fmt, ok, Merged(fmt, m, field).value, s[n..]);
      }
    }
  }

  ghost predicate IsUnknown(skip: Skipper, schema: Schema, s: Bytes) {
    s != [] && NextField(skip, schema, s).Some? && NextField(skip, schema, s).value.0.UnknownField?
  }

  ghost function UnknownBytes(skip: Skipper, schema: Schema, s: Bytes): Bytes
    requires IsUnknown(skip, schema, s)
  {
    NextField(skip, schema, s).value.0.bytes
  }

  /** Merging fields leaves the unknown bytes alone, so they stay bytes that parse. */
  lemma DecodedParses<M(!new)>(skip: Skipper, fmt: Format<M>, unknown: M -> Bytes, m: M, s: Bytes)
    requires forall m: M, f: Field :: fmt.merge(m, f).Some? ==> unknown(fmt.merge(m, f).value) == unknown(m)
    requires forall m: M, u: Bytes :: unknown(fmt.keep(m, u)) == unknown(m) + u
    requires AllUnknown(skip, fmt.schema, unknown(m)) && Decode(skip, fmt, m, s).Some?
    ensures AllUnknown(skip, fmt.schema, unknown(Decode(skip, fmt, m, s).value))
  {
    var ok := (m: M) => AllUnknown(skip, fmt.schema, unknown(m));
    forall m: M, t: Bytes | ok(m) && IsUnknown(skip, fmt.schema, t)
      ensures ok(fmt.keep(m, UnknownBytes(skip, fmt.schema, t)))
    {
      UnknownGrows(skip, fmt.schema, unknown(m), t);
    }
    hide AllUnknown, UnknownBytes, IsUnknown;
    DecodeKeeps(skip, fmt, ok, m, s);
  }

  lemma DecodedTimestampParses(skip: Skipper, m: Timestamp, s: Bytes)
    requires AllUnknown(skip, TIMESTAMP_SCHEMA, m.unknown) && DecodeTimestamp(skip, m, s).Some?
    ensures AllUnknown(skip, TIMESTAMP_SCHEMA, DecodeTimestamp(skip, m, s).value.unknown)
  {
    DecodedParses(skip, TimestampFormat(), (m: Timestamp) => m.unknown, m, s);
  }

  lemma DecodedMessageParses(skip: Skipper, m: Message, s: Bytes)
    requires AllUnknown(skip, MESSAGE_SCHEMA, m.unknown) && DecodeMessage(skip, m, s).Some?
    ensures AllUnknown(skip, MESSAGE_SCHEMA, DecodeMessage(skip, m, s).value.unknown)
  {
    DecodedParses(skip, MessageFormat(), (m: Message) => m.unknown, m, s);
  }

  lemma DecodedAnnounceParses(skip: Skipper, m: Announce, s: Bytes)
    requires AllUnknown(skip, ANNOUNCE_SCHEMA, m.unknown) && DecodeAnnounce(skip, m, s).Some?
    ensures AllUnknown(skip, ANNOUNCE_SCHEMA, DecodeAnnounce(skip, m, s).value.unknown)
  {
    DecodedParses(skip, AnnounceFormat(), (m: Announce) => m.unknown, m, s);
  }

  lemma DecodedRequestParses(skip: Skipper, m: Request, s: Bytes)
    requires AllUnknown(skip, REQUEST_SCHEMA, m.unknown) && DecodeRequest(skip, m, s).Some?
    ensures AllUnknown(skip, REQUEST_SCHEMA, DecodeRequest(skip, m, s).value.unknown)
  {
    DecodedParses(skip, RequestFormat(), (m: Request) => m.unknown, m, s);
  }

  lemma DecodedDeviceParses(skip: Skipper, m: Device, s: Bytes)
    requires AllUnknown(skip, DEVICE_SCHEMA, m.unknown) && DecodeDevice(skip, m, s).Some?
    ensures AllUnknown(skip, DEVICE_SCHEMA, DecodeDevice(skip, m, s).value.unknown)
  {
    DecodedParses(skip, DeviceFormat(), (m: Device) => m.unknown, m, s);
  }

  lemma DecodedHandshakeParses(skip: Skipper, m: Handshake, s: Bytes)
    requires HandshakeParses(skip, m) && DecodeHandshake(skip, m, s).Some?
    ensures HandshakeParses(skip, DecodeHandshake(skip, m, s).value)
  {
    var ok := (m: Handshake) => HandshakeParses(skip, m);
    forall m: Handshake, t: Bytes | ok(m) && IsUnknown(skip, HANDSHAKE_SCHEMA, t)
      ensures ok(m.(unknown := m.unknown + UnknownBytes(skip, HANDSHAKE_SCHEMA, t)))
    {
      UnknownGrows(skip, HANDSHAKE_SCHEMA, m.unknown, t);
    }
    forall m: Handshake, f: Field | ok(m) && MergeHandshake(skip, m, f).Some?
      ensures ok(MergeHandshake(skip, m, f).value)
    {
      if f.BytesField? && f.num == 2 {
        DecodedDeviceParses(skip, if m.device.Some? then m.device.value else NEW_DEVICE, f.bytes);
      }
    }
    hide HandshakeParses, UnknownBytes, IsUnknown, MergeHandshake;
    DecodeKeeps(skip, HandshakeFormat(skip), ok, m, s);
  }

  lemma MergedEventParses(skip: Skipper, m: Event, f: Field)
    requires EventParses(skip, m) && MergeEvent(skip, m, f).Some?
    ensures EventParses(skip, MergeEvent(skip, m, f).value)
  {
    assert forall schema: Schema :: AllUnknown(skip, schema, []);
    hide AllUnknown, DecodeTimestamp, DecodeMessage, DecodeHandshake, DecodeAnnounce, DecodeRequest;
    match f
    case BytesField(1, bytes) =>
      DecodedTimestampParses(skip, if m.created.Some? then m.created.value else NEW_TIMESTAMP, bytes);
    case BytesField(2, bytes) =>
      DecodedMessageParses(skip, if m.payload.MessagePayload? then m.payload.message else NEW_MESSAGE, bytes);
    case BytesField(3, bytes) =>
      DecodedHandshakeParses(skip, if m.payload.HandshakePayload? then m.payload.handshake else NEW_HANDSHAKE, bytes);
    case BytesField(4, bytes) =>
      DecodedAnnounceParses(skip, if m.payload.AnnouncePayload? then m.payload.announce else NEW_ANNOUNCE, bytes);
    case BytesField(6, bytes) =>
      DecodedRequestParses(skip, if m.payload.RequestPayload? then m.payload.request else NEW_REQUEST, bytes);
    case _ =>
  }

  /** Every message that comes out of the decoder has unknown bytes that parse. */
  lemma DecodedEventParses(skip: Skipper, m: Event, s: Bytes)
    requires EventParses(skip, m) && DecodeEvent(skip, m, s).Some?
    ensures EventParses(skip, DecodeEvent(skip, m, s).value)
  {
    var ok := (m: Event) => EventParses(skip, m);
    forall m: Event, t: Bytes | ok(m) && IsUnknown(skip, EVENT_SCHEMA, t)
      ensures ok(m.(unknown := m.unknown + UnknownBytes(skip, EVENT_SCHEMA, t)))
    {
      UnknownGrows(skip, EVENT_SCHEMA, m.unknown, t);
    }
    forall m: Event, f: Field | ok(m) && MergeEvent(skip, m, f).Some?
      ensures ok(MergeEvent(skip, m, f).value)
    {
      MergedEventParses(skip, m, f);
    }
    hide EventParses, UnknownBytes, IsUnknown, MergeEvent;
    DecodeKeeps(skip, EventFormat(skip), ok, m, s);
  }

  /** Whatever bytes an event was read from, written again and read again it is the same event. */
  lemma ReencodedEvent(skip: Skipper, s: Bytes)
    requires DecodeEvent(skip, NEW_EVENT, s).Some? && EventFits(DecodeEvent(skip, NEW_EVENT, s).value)
    ensures var m := DecodeEvent(skip, NEW_EVENT, s).value;
      DecodeEvent(skip, NEW_EVENT, EncodeEvent(m)) == Some(m)
  {
    DecodedEventParses(skip, NEW_EVENT, s);
    EventRoundTrip(skip, DecodeEvent(skip, NEW_EVENT, s).value);
  }
}
