/** The protobuf messages of internal/types/proto as values: what they are written as, and what merging
    encoded bytes into them gives. */
module Proto {
  import opened Wrappers
  import opened Machine
  import opened Varint
  import opened Wire

  datatype Timestamp = Timestamp(seconds: Int64, nanos: Int32, unknown: Bytes)

  datatype Message = Message(
    id: Int64, contentLength: Uint64, mime: Int32, contentHash: Uint64, name: Bytes,
    batchID: Int64, batchTotal: Uint32, unknown: Bytes)

  datatype Announce = Announce(
    id: Int64, contentLength: Uint64, mime: Int32, contentHash: Uint64,
    batchID: Int64, batchTotal: Uint32, unknown: Bytes)

  datatype Request = Request(id: Int64, unknown: Bytes)

  datatype Device = Device(name: Bytes, arch: Bytes, id: Int64, unknown: Bytes)

  datatype Handshake = Handshake(version: Bytes, device: Option<Device>, port: Uint32, unknown: Bytes)

  /** The `Payload` oneof. */
  datatype Payload =
    | NoPayload
    | MessagePayload(message: Message)
    | HandshakePayload(handshake: Handshake)
    | AnnouncePayload(announce: Announce)
    | RequestPayload(request: Request)

  datatype Event = Event(created: Option<Timestamp>, payload: Payload, unknown: Bytes)

  const NEW_TIMESTAMP := Timestamp(0, 0, [])
  const NEW_MESSAGE := Message(0, 0, 0, 0, [], 0, 0, [])
  const NEW_ANNOUNCE := Announce(0, 0, 0, 0, 0, 0, [])
  const NEW_REQUEST := Request(0, [])
  const NEW_DEVICE := Device([], [], 0, [])
  const NEW_HANDSHAKE := Handshake([], None, 0, [])
  const NEW_EVENT := Event(None, NoPayload, [])

  /** `uint64(x)` for a signed `x`. */
  function ToUint64(x: Int64): Uint64 {
    x % TWO64
  }

  lemma SignedRoundTrip(x: Int64)
    ensures ToInt64(ToUint64(x)) == x
    ensures ToUint64(x) == 0 <==> x == 0
    ensures -0x8000_0000 <= x < 0x8000_0000 ==> ToInt32(ToUint64(x)) == x
  {
  }

  // ---------------------------------------------------------------- decoding

  const TIMESTAMP_SCHEMA: Schema := map[1 := Number, 2 := Number]
  const MESSAGE_SCHEMA: Schema :=
    map[1 := Number, 2 := Number, 3 := Number, 4 := Number, 5 := Delimited, 6 := Number, 7 := Number]
  const ANNOUNCE_SCHEMA: Schema :=
    map[1 := Number, 2 := Number, 3 := Number, 4 := Number, 5 := Number, 6 := Number]
  const REQUEST_SCHEMA: Schema := map[1 := Number]
  const DEVICE_SCHEMA: Schema := map[1 := Delimited, 2 := Delimited, 3 := Number]
  const HANDSHAKE_SCHEMA: Schema := map[1 := Delimited, 2 := Delimited, 3 := Number]
  const EVENT_SCHEMA: Schema :=
    map[1 := Delimited, 2 := Delimited, 3 := Delimited, 4 := Delimited, 6 := Delimited]

  function MergeTimestamp(m: Timestamp, f: Field): Option<Timestamp> {
    match f
    case NumberField(1, raw) => Some(m.(seconds := ToInt64(raw)))
    case NumberField(2, raw) => Some(m.(nanos := ToInt32(raw)))
    case _ => None
  }

  function MergeMessage(m: Message, f: Field): Option<Message> {
    match f
    case NumberField(1, raw) => Some(m.(id := ToInt64(raw)))
    case NumberField(2, raw) => Some(m.(contentLength := raw % TWO64))
    case NumberField(3, raw) => Some(m.(mime := ToInt32(raw)))
    case NumberField(4, raw) => Some(m.(contentHash := raw % TWO64))
    case BytesField(5, bytes) => Some(m.(name := bytes))
    case NumberField(6, raw) => Some(m.(batchID := ToInt64(raw)))
    case NumberField(7, raw) => Some(m.(batchTotal := raw % TWO32))
    case _ => None
  }

  function MergeAnnounce(m: Announce, f: Field): Option<Announce> {
    match f
    case NumberField(1, raw) => Some(m.(id := ToInt64(raw)))
    case NumberField(2, raw) => Some(m.(contentLength := raw % TWO64))
    case NumberField(3, raw) => Some(m.(mime := ToInt32(raw)))
    case NumberField(4, raw) => Some(m.(contentHash := raw % TWO64))
    case NumberField(5, raw) => Some(m.(batchID := ToInt64(raw)))
    case NumberField(6, raw) => Some(m.(batchTotal := raw % TWO32))
    case _ => None
  }

  function MergeRequest(m: Request, f: Field): Option<Request> {
    match f
    case NumberField(1, raw) => Some(m.(id := ToInt64(raw)))
    case _ => None
  }

  function MergeDevice(m: Device, f: Field): Option<Device> {
    match f
    case BytesField(1, bytes) => Some(m.(name := bytes))
    case BytesField(2, bytes) => Some(m.(arch := bytes))
    case NumberField(3, raw) => Some(m.(id := ToInt64(raw)))
    case _ => None
  }

  /** A nested message is decoded into the one that is there, if one is. */
  function MergeHandshake(skip: Skipper, m: Handshake, f: Field): Option<Handshake> {
    match f
    case BytesField(1, bytes) => Some(m.(version := bytes))
    case BytesField(2, bytes) =>
      (match DecodeDevice(skip, if m.device.Some? then m.device.value else NEW_DEVICE, bytes)
       case None => None
       case Some(d) => Some(m.(device := Some(d))))
    case NumberField(3, raw) => Some(m.(port := raw % TWO32))
    case _ => None
  }

  /** A payload of the same case is merged into, one of another case is replaced. */
  function MergeEvent(skip: Skipper, m: Event, f: Field): Option<Event> {
    match f
    case BytesField(1, bytes) =>
      (match DecodeTimestamp(skip, if m.created.Some? then m.created.value else NEW_TIMESTAMP, bytes)
       case None => None
       case Some(t) => Some(m.(created := Some(t))))
    case BytesField(2, bytes) =>
      (match DecodeMessage(skip, if m.payload.MessagePayload? then m.payload.message else NEW_MESSAGE, bytes)
       case None => None
       case Some(p) => Some(m.(payload := MessagePayload(p))))
    case BytesField(3, bytes) =>
      (match DecodeHandshake(skip, if m.payload.HandshakePayload? then m.payload.handshake else NEW_HANDSHAKE, bytes)
       case None => None
       case Some(p) => Some(m.(payload := HandshakePayload(p))))
    case BytesField(4, bytes) =>
      (match DecodeAnnounce(skip, if m.payload.AnnouncePayload? then m.payload.announce else NEW_ANNOUNCE, bytes)
       case None => None
       case Some(p) => Some(m.(payload := AnnouncePayload(p))))
    case BytesField(6, bytes) =>
      (match DecodeRequest(skip, if m.payload.RequestPayload? then m.payload.request else NEW_REQUEST, bytes)
       case None => None
       case Some(p) => Some(m.(payload := RequestPayload(p))))
    case _ => None
  }

  function TimestampFormat(): Format<Timestamp> {
    Format(TIMESTAMP_SCHEMA, MergeTimestamp, (m: Timestamp, u) => m.(unknown := m.unknown + u))
  }

  function MessageFormat(): Format<Message> {
    Format(MESSAGE_SCHEMA, MergeMessage, (m: Message, u) => m.(unknown := m.unknown + u))
  }

  function AnnounceFormat(): Format<Announce> {
    Format(ANNOUNCE_SCHEMA, MergeAnnounce, (m: Announce, u) => m.(unknown := m.unknown + u))
  }

  function RequestFormat(): Format<Request> {
    Format(REQUEST_SCHEMA, MergeRequest, (m: Request, u) => m.(unknown := m.unknown + u))
  }

  function DeviceFormat(): Format<Device> {
    Format(DEVICE_SCHEMA, MergeDevice, (m: Device, u) => m.(unknown := m.unknown + u))
  }

  function HandshakeFormat(skip: Skipper): Format<Handshake> {
    Format(HANDSHAKE_SCHEMA, (m, f) => MergeHandshake(skip, m, f), (m: Handshake, u) => m.(unknown := m.unknown + u))
  }

  function EventFormat(skip: Skipper): Format<Event> {
    Format(EVENT_SCHEMA, (m, f) => MergeEvent(skip, m, f), (m: Event, u) => m.(unknown := m.unknown + u))
  }

  function DecodeTimestamp(skip: Skipper, m: Timestamp, s: Bytes): Option<Timestamp> {
    Decode(skip, TimestampFormat(), m, s)
  }

  function DecodeMessage(skip: Skipper, m: Message, s: Bytes): Option<Message> {
    Decode(skip, MessageFormat(), m, s)
  }

  function DecodeAnnounce(skip: Skipper, m: Announce, s: Bytes): Option<Announce> {
    Decode(skip, AnnounceFormat(), m, s)
  }

  function DecodeRequest(skip: Skipper, m: Request, s: Bytes): Option<Request> {
    Decode(skip, RequestFormat(), m, s)
  }

  function DecodeDevice(skip: Skipper, m: Device, s: Bytes): Option<Device> {
    Decode(skip, DeviceFormat(), m, s)
  }

  function DecodeHandshake(skip: Skipper, m: Handshake, s: Bytes): Option<Handshake> {
    Decode(skip, HandshakeFormat(skip), m, s)
  }

  function DecodeEvent(skip: Skipper, m: Event, s: Bytes): Option<Event> {
    Decode(skip, EventFormat(skip), m, s)
  }

  // ---------------------------------------------------------------- encoding

  /** The length of a string field: `1 + l + SizeOfVarint(l)`, or nothing. */
  function NumberSize(v: Uint64): nat {
    if v == 0 then 0 else 1 + SizeOfVarint(v)
  }

  function NestedSize(l: nat): nat
    requires l < TWO63
  {
    1 + l + SizeOfVarint(l)
  }

  function BytesSize(bytes: Bytes): nat
    requires |bytes| < TWO63
  {
    if bytes == [] then 0 else NestedSize(|bytes|)
  }

  /** The strings of a message fit a Go `int`, with room for the fields around them. */
  const MAX_STRING: nat := 0x1000_0000_0000_0000

  predicate Fits(bytes: Bytes) {
    |bytes| < MAX_STRING
  }

  predicate MessageFits(m: Message) {
    Fits(m.name) && Fits(m.unknown)
  }

  predicate DeviceFits(m: Device) {
    Fits(m.name) && Fits(m.arch) && Fits(m.unknown)
  }

  predicate HandshakeFits(m: Handshake) {
    Fits(m.version) && Fits(m.unknown) && (m.device.Some? ==> DeviceFits(m.device.value))
  }

  predicate PayloadFits(p: Payload) {
    match p
    case NoPayload => true
    case MessagePayload(m) => MessageFits(m)
    case HandshakePayload(m) => HandshakeFits(m)
    case AnnouncePayload(m) => Fits(m.unknown)
    case RequestPayload(m) => Fits(m.unknown)
  }

  predicate EventFits(m: Event) {
    PayloadFits(m.payload) && Fits(m.unknown) && (m.created.Some? ==> Fits(m.created.value.unknown))
  }

  function EncodeTimestamp(m: Timestamp): Bytes {
    PutNumber(1, ToUint64(m.seconds)) + (PutNumber(2, ToUint64(m.nanos)) + m.unknown)
  }

  function EncodeMessage(m: Message): Bytes
    requires MessageFits(m)
  {
    PutNumber(1, ToUint64(m.id)) + (PutNumber(2, m.contentLength) + (PutNumber(3, ToUint64(m.mime))
    + (PutNumber(4, m.contentHash) + (PutBytes(5, m.name) + (PutNumber(6, ToUint64(m.batchID))
    + (PutNumber(7, m.batchTotal) + m.unknown))))))
  }

  function EncodeAnnounce(m: Announce): Bytes {
    PutNumber(1, ToUint64(m.id)) + (PutNumber(2, m.contentLength) + (PutNumber(3, ToUint64(m.mime))
    + (PutNumber(4, m.contentHash) + (PutNumber(5, ToUint64(m.batchID))
    + (PutNumber(6, m.batchTotal) + m.unknown)))))
  }

  function EncodeRequest(m: Request): Bytes {
    PutNumber(1, ToUint64(m.id)) + m.unknown
  }

  function EncodeDevice(m: Device): Bytes
    requires DeviceFits(m)
  {
    PutBytes(1, m.name) + (PutBytes(2, m.arch) + (PutNumber(3, ToUint64(m.id)) + m.unknown))
  }

  /** An absent device is left out, an empty one is not. */
  function EncodeDeviceField(d: Option<Device>): Bytes
    requires d.Some? ==> DeviceFits(d.value)
  {
    if d.None? then [] else
    DeviceSizeIsExact(d.value);
    PutNested(2, EncodeDevice(d.value))
  }

  function EncodeHandshake(m: Handshake): Bytes
    requires HandshakeFits(m)
  {
    PutBytes(1, m.version) + (EncodeDeviceField(m.device) + (PutNumber(3, m.port) + m.unknown))
  }

  function EncodePayload(p: Payload): Bytes
    requires PayloadFits(p)
  {
    PayloadSizeIsExact(p);
    match p
    case NoPayload => []
    case MessagePayload(m) => PutNested(2, EncodeMessage(m))
    case HandshakePayload(m) => PutNested(3, EncodeHandshake(m))
    case AnnouncePayload(m) => PutNested(4, EncodeAnnounce(m))
    case RequestPayload(m) => PutNested(6, EncodeRequest(m))
  }

  function EncodeCreated(t: Option<Timestamp>): Bytes
    requires t.Some? ==> Fits(t.value.unknown)
  {
    if t.None? then [] else
    TimestampSizeIsExact(t.value);
    PutNested(1, EncodeTimestamp(t.value))
  }

  function EncodeEvent(m: Event): Bytes
    requires EventFits(m)
  {
    EncodeCreated(m.created) + (EncodePayload(m.payload) + m.unknown)
  }

  // ---------------------------------------------------------------- sizes

  function SizeTimestamp(m: Timestamp): nat {
    NumberSize(ToUint64(m.seconds)) + NumberSize(ToUint64(m.nanos)) + |m.unknown|
  }

  function SizeMessage(m: Message): nat
    requires MessageFits(m)
  {
    NumberSize(ToUint64(m.id)) + NumberSize(m.contentLength) + NumberSize(ToUint64(m.mime)) + NumberSize(m.contentHash)
    + BytesSize(m.name) + NumberSize(ToUint64(m.batchID)) + NumberSize(m.batchTotal) + |m.unknown|
  }

  function SizeAnnounce(m: Announce): nat {
    NumberSize(ToUint64(m.id)) + NumberSize(m.contentLength) + NumberSize(ToUint64(m.mime)) + NumberSize(m.contentHash)
    + NumberSize(ToUint64(m.batchID)) + NumberSize(m.batchTotal) + |m.unknown|
  }

  function SizeRequest(m: Request): nat {
    NumberSize(ToUint64(m.id)) + |m.unknown|
  }

  function SizeDevice(m: Device): nat
    requires DeviceFits(m)
  {
    BytesSize(m.name) + BytesSize(m.arch) + NumberSize(ToUint64(m.id)) + |m.unknown|
  }

  lemma NumberSizeIsExact(num: nat, v: Uint64)
    requires 1 <= num <= 15
    ensures |PutNumber(num, v)| == NumberSize(v) <= 11
  {
    VarintIsShort(v);
  }

  lemma NestedSizeIsExact(num: nat, body: Bytes)
    requires 1 <= num <= 15 && |body| < TWO63
    ensures |body| < |PutNested(num, body)| == NestedSize(|body|) <= |body| + 11
  {
    VarintIsShort(|body|);
  }

  lemma TimestampSizeIsExact(m: Timestamp)
    ensures |EncodeTimestamp(m)| == SizeTimestamp(m) <= |m.unknown| + 22
  {
    NumberSizeIsExact(1, ToUint64(m.seconds));
    NumberSizeIsExact(2, ToUint64(m.nanos));
  }

  lemma MessageSizeIsExact(m: Message)
    requires MessageFits(m)
    ensures |EncodeMessage(m)| == SizeMessage(m) <= |m.name| + |m.unknown| + 77
  {
    hide PutNumber, NumberSize, PutNested, NestedSize;
    NumberSizeIsExact(1, ToUint64(m.id));
    NumberSizeIsExact(2, m.contentLength);
    NumberSizeIsExact(3, ToUint64(m.mime));
    NumberSizeIsExact(4, m.contentHash);
    NestedSizeIsExact(5, m.name);
    NumberSizeIsExact(6, ToUint64(m.batchID));
    NumberSizeIsExact(7, m.batchTotal);
  }

  lemma AnnounceSizeIsExact(m: Announce)
    ensures |EncodeAnnounce(m)| == SizeAnnounce(m) <= |m.unknown| + 66
  {
    hide PutNumber, NumberSize;
    NumberSizeIsExact(1, ToUint64(m.id));
    NumberSizeIsExact(2, m.contentLength);
    NumberSizeIsExact(3, ToUint64(m.mime));
    NumberSizeIsExact(4, m.contentHash);
    NumberSizeIsExact(5, ToUint64(m.batchID));
    NumberSizeIsExact(6, m.batchTotal);
  }

  lemma RequestSizeIsExact(m: Request)
    ensures |EncodeRequest(m)| == SizeRequest(m) <= |m.unknown| + 11
  {
    NumberSizeIsExact(1, ToUint64(m.id));
  }

  lemma DeviceSizeIsExact(m: Device)
    requires DeviceFits(m)
    ensures |EncodeDevice(m)| == SizeDevice(m) <= |m.name| + |m.arch| + |m.unknown| + 33
  {
    hide PutNumber, NumberSize, PutNested, NestedSize;
    NestedSizeIsExact(1, m.name);
    NestedSizeIsExact(2, m.arch);
    NumberSizeIsExact(3, ToUint64(m.id));
  }

  function SizeDeviceField(d: Option<Device>): nat
    requires d.Some? ==> DeviceFits(d.value)
  {
    if d.None? then 0 else
    DeviceSizeIsExact(d.value);
    NestedSize(SizeDevice(d.value))
  }

  function SizeHandshake(m: Handshake): nat
    requires HandshakeFits(m)
  {
    BytesSize(m.version) + SizeDeviceField(m.device) + NumberSize(m.port) + |m.unknown|
  }

  lemma HandshakeSizeIsExact(m: Handshake)
    requires HandshakeFits(m)
    ensures |EncodeHandshake(m)| == SizeHandshake(m) <= 5 * MAX_STRING + 66
  {
    hide PutNumber, NumberSize, PutNested, NestedSize;
    NestedSizeIsExact(1, m.version);
    NumberSizeIsExact(3, m.port);
    if m.device.Some? {
      DeviceSizeIsExact(m.device.value);
      NestedSizeIsExact(2, EncodeDevice(m.device.value));
    }
  }

  /** The length of the payload message itself. */
  function InnerSize(p: Payload): nat
    requires PayloadFits(p)
  {
    match p
    case NoPayload => 0
    case MessagePayload(m) => SizeMessage(m)
    case HandshakePayload(m) => SizeHandshake(m)
    case AnnouncePayload(m) => SizeAnnounce(m)
    case RequestPayload(m) => SizeRequest(m)
  }

  lemma PayloadSizeIsExact(p: Payload)
    requires PayloadFits(p)
    ensures InnerSize(p) <= 5 * MAX_STRING + 77
    ensures match p
      case NoPayload => true
      case MessagePayload(m) => |EncodeMessage(m)| == InnerSize(p)
      case HandshakePayload(m) => |EncodeHandshake(m)| == InnerSize(p)
      case AnnouncePayload(m) => |EncodeAnnounce(m)| == InnerSize(p)
      case RequestPayload(m) => |EncodeRequest(m)| == InnerSize(p)
  {
    match p
    case NoPayload =>
    case MessagePayload(m) => MessageSizeIsExact(m);
    case HandshakePayload(m) => HandshakeSizeIsExact(m);
    case AnnouncePayload(m) => AnnounceSizeIsExact(m);
    case RequestPayload(m) => RequestSizeIsExact(m);
  }

  function SizeCreated(t: Option<Timestamp>): nat
    requires t.Some? ==> Fits(t.value.unknown)
  {
    if t.None? then 0 else
    TimestampSizeIsExact(t.value);
    NestedSize(SizeTimestamp(t.value))
  }

  function SizePayload(p: Payload): nat
    requires PayloadFits(p)
  {
    PayloadSizeIsExact(p);
    if p.NoPayload? then 0 else NestedSize(InnerSize(p))
  }

  function SizeEvent(m: Event): nat
    requires EventFits(m)
  {
    SizeCreated(m.created) + SizePayload(m.payload) + |m.unknown|
  }

  /** `SizeVT` of an event is exactly what its parts are written as, at every level of nesting. */
  lemma EventSizeIsExact(m: Event)
    requires EventFits(m)
    ensures |EncodeEvent(m)| == SizeEvent(m) <= 7 * MAX_STRING + 200
  {
    hide PutNumber, NumberSize, PutNested, NestedSize;
    PayloadSizeIsExact(m.payload);
    match m.payload {
      case NoPayload =>
      case MessagePayload(p) => NestedSizeIsExact(2, EncodeMessage(p));
      case HandshakePayload(p) => NestedSizeIsExact(3, EncodeHandshake(p));
      case AnnouncePayload(p) => NestedSizeIsExact(4, EncodeAnnounce(p));
      case RequestPayload(p) => NestedSizeIsExact(6, EncodeRequest(p));
    }
    if m.created.Some? {
      TimestampSizeIsExact(m.created.value);
      NestedSizeIsExact(1, EncodeTimestamp(m.created.value));
    }
  }
}
