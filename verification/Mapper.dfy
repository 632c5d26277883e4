/** internal/protocol/mapper.go: events of the domain as protobuf events and back, and the pools their objects
    are taken from and returned to. */
module Mapper {
  import opened Wrappers
  import opened Machine
  import D = Domain
  import P = Proto
  import V = VtProto

  /** What `MapToProto` can be given. */
  datatype AnyEvent =
    | MessageEvent(message: D.EventMessage)
    | AnnounceEvent(announce: D.EventAnnounce)
    | RequestEvent(request: D.EventRequest)
    | HandshakeEvent(handshake: D.EventHandshake)
    | Unsupported

  const NANOS := 1_000_000_000

  /** `time.Time.Unix` and `time.Time.Nanosecond`. */
  function TimestampOf(t: D.Instant): P.Timestamp {
    P.Timestamp(t / NANOS, t % NANOS, [])
  }

  /** `time.Unix(seconds, nanos)`: nanoseconds carry over into seconds, which wrap around. No timestamp is
      the epoch. */
  function AsTime(t: Option<P.Timestamp>): D.Instant {
    if t.None? then 0 else
    ToInt64(t.value.seconds + t.value.nanos / NANOS) * NANOS + t.value.nanos % NANOS
  }

  lemma TimeRoundTrip(t: D.Instant)
    ensures AsTime(Some(TimestampOf(t))) == t
  {
  }

  const TEXT: Int32 := 0
  const IMAGE: Int32 := 1
  const PATH: Int32 := 2

  function ToProtoMime(mime: Int32): Int32 {
    if mime == D.MIME_TEXT then TEXT
    else if mime == D.MIME_IMAGE then IMAGE
    else if mime == D.MIME_PATH then PATH
    else if mime == D.MIME_UNKNOWN then TEXT
    else if mime == D.MIME_AUDIO || mime == D.MIME_VIDEO || mime == D.MIME_BINARY then PATH
    else TEXT
  }

  function ToDomainMime(mime: Int32): Int32 {
    if mime == TEXT then D.MIME_TEXT
    else if mime == IMAGE then D.MIME_IMAGE
    else if mime == PATH then D.MIME_PATH
    else D.MIME_TEXT
  }

  function ToProtoPayload(v: AnyEvent): P.Payload {
    match v
    case MessageEvent(e) =>
      var m := e.payload;
      P.MessagePayload(P.Message(m.id, m.length, ToProtoMime(m.mime), m.hash, m.name, m.batchID, m.batchTotal, []))
    case AnnounceEvent(e) =>
      var a := e.payload;
      P.AnnouncePayload(P.Announce(a.id, a.length, ToProtoMime(a.mime), a.hash, a.batchID, a.batchTotal, []))
    case RequestEvent(e) => P.RequestPayload(P.Request(e.payload.id, []))
    case HandshakeEvent(e) =>
      var h := e.payload;
      P.HandshakePayload(
        P.Handshake(h.version, Some(P.Device(h.device.name, h.device.arch, h.device.id, [])), h.port, []))
    case Unsupported => P.NoPayload
  }

  function CreatedOf(v: AnyEvent): D.Instant
    requires !v.Unsupported?
  {
    match v
    case MessageEvent(e) => e.created
    case AnnounceEvent(e) => e.created
    case RequestEvent(e) => e.created
    case HandshakeEvent(e) => e.created
  }

  function ToProto(v: AnyEvent): P.Event
    requires !v.Unsupported?
  {
    P.Event(Some(TimestampOf(CreatedOf(v))), ToProtoPayload(v), [])
  }

  const UNKNOWN_DEVICE := D.Device(0, UNKNOWN, UNKNOWN)

  /** "unknown" */
  const UNKNOWN: Bytes := [117, 110, 107, 110, 111, 119, 110]

  function ToDomainDevice(d: Option<P.Device>): D.Device {
    if d.None? then UNKNOWN_DEVICE else D.Device(d.value.id, d.value.name, d.value.arch)
  }

  /** The event that is decoded from a protobuf event, if it has a payload. */
  function ToDomain(ev: P.Event): Option<AnyEvent> {
    var created := AsTime(ev.created);
    match ev.payload
    case NoPayload => None
    case MessagePayload(m) =>
      Some(MessageEvent(D.Event(D.Author(m.id), created,
        D.Message(m.id, [], ToDomainMime(m.mime), m.contentHash, m.contentLength, m.name, m.batchID, m.batchTotal))))
    case AnnouncePayload(a) =>
      Some(AnnounceEvent(D.Event(D.Author(a.id), created,
        D.Announce(a.id, ToDomainMime(a.mime), a.contentHash, a.contentLength, a.batchID, a.batchTotal))))
    case RequestPayload(r) => Some(RequestEvent(D.Event(D.Author(r.id), created, D.Request(r.id))))
    case HandshakePayload(h) =>
      Some(HandshakeEvent(D.Event(0, created, D.Handshake(h.version, ToDomainDevice(h.device), h.port))))
  }

  /** An event as its receiver sees it. */
  function Received(v: AnyEvent): AnyEvent {
    match v
    case MessageEvent(e) => MessageEvent(D.AsReceived(e))
    case AnnounceEvent(e) => AnnounceEvent(D.AnnounceAsReceived(e))
    case RequestEvent(e) => RequestEvent(e.(from := D.Author(e.payload.id)))
    case HandshakeEvent(e) => HandshakeEvent(e.(from := 0))
    case Unsupported => Unsupported
  }

  /** Mapping there and back: the sender becomes the author of the id, or nobody, the data is dropped, and seven
      kinds of mime become three. Everything else stays. */
  lemma MappedBack(v: AnyEvent)
    requires !v.Unsupported?
    ensures ToDomain(ToProto(v)) == Some(Received(v))
  {
    hide AsTime, TimestampOf;
    TimeRoundTrip(CreatedOf(v));
  }

  /** What mapping changes it changes once. */
  lemma ReceivedIsStable(v: AnyEvent)
    ensures Received(Received(v)) == Received(v)
  {
  }

  /** Exactly these events come through unchanged. */
  lemma NothingIsLostExactlyWhen(v: AnyEvent)
    ensures Received(v) == v <==> match v
      case MessageEvent(e) => e.from == D.Author(e.payload.id) && e.payload.data == []
        && (e.payload.mime == D.MIME_TEXT || e.payload.mime == D.MIME_IMAGE || e.payload.mime == D.MIME_PATH)
      case AnnounceEvent(e) => e.from == D.Author(e.payload.id)
        && (e.payload.mime == D.MIME_TEXT || e.payload.mime == D.MIME_IMAGE || e.payload.mime == D.MIME_PATH)
      case RequestEvent(e) => e.from == D.Author(e.payload.id)
      case HandshakeEvent(e) => e.from == 0
      case Unsupported => true
  {
  }

  /** An announce of an audio file, sent on by node 2, arrives as one of a path from its author, node 1. */
  lemma SenderAndMimeAreLost()
    ensures
      var ann := D.Announce(4096, D.MIME_AUDIO, 7, 3, 0, 0);
      ToDomain(ToProto(AnnounceEvent(D.Event(2, 0, ann))))
        == Some(AnnounceEvent(D.Event(1, 0, ann.(mime := D.MIME_PATH))))
  {
    MappedBack(AnnounceEvent(D.Event(2, 0, D.Announce(4096, D.MIME_AUDIO, 7, 3, 0, 0))));
  }

  /** `eventProtoPool` and `timestampPool`. A pool may hand out any object it holds, or a new one. */
  class Pools {
    var events: set<V.Event>
    var timestamps: set<V.Timestamp>

    /** What is pooled is blank, and no pooled event has parts. `setCreated` needs the timestamps blank: it does
        not clear their unknown fields. */
    ghost predicate Valid()
      reads this, events, timestamps
    {
      && (forall e <- events :: e.Repr == {e} && e.Valid() && e.Value() == P.NEW_EVENT)
      && (forall t <- timestamps :: t.Value() == P.NEW_TIMESTAMP)
    }

    constructor ()
      ensures Valid() && events == {} && timestamps == {}
    {
      events, timestamps := {}, {};
    }

    method GetEvent() returns (pb: V.Event)
      requires Valid()
      modifies this`events
      ensures Valid() && events <= old(events)
      ensures pb !in events && (pb in old(events) || fresh(pb)) && pb.Repr == {pb} && pb.Valid()
    {
      var pooled: bool := *;
      if pooled && events != {} {
        pb :| pb in events;
        events := events - {pb};
      } else {
        pb := new V.Event();
      }
    }

    method GetTimestamp() returns (ts: V.Timestamp)
      requires Valid()
      modifies this`timestamps
      ensures Valid() && timestamps <= old(timestamps)
      ensures ts !in timestamps && (ts in old(timestamps) || fresh(ts)) && ts.Value() == P.NEW_TIMESTAMP
    {
      var pooled: bool := *;
      if pooled && timestamps != {} {
        ts :| ts in timestamps;
        timestamps := timestamps - {ts};
      } else {
        ts := new V.Timestamp();
      }
    }

    /** Puts an event and its timestamp back, both blank again. */
    method ReleaseEvent(pb: V.Event)
      requires Valid() && pb.Valid() && pb !in events && pb.created !in timestamps
      modifies this, pb, pb.created
      ensures Valid()
      ensures events == old(events) + {pb}
      ensures timestamps == old(timestamps) + if old(pb.created) == null then {} else {old(pb.created)}
    {
      var ts := pb.created;
      pb.Reset();
      if ts != null {
        ts.Reset();
        timestamps := timestamps + {ts};
      }
      events := events + {pb};
    }

    /** Gives `pb` a pooled timestamp. */
    method SetCreated(pb: V.Event, t: D.Instant)
      requires Valid() && pb.Valid() && pb !in events && pb.Value() == P.NEW_EVENT && pb.Repr == {pb}
      modifies this`timestamps, pb, timestamps
      ensures Valid() && timestamps <= old(timestamps)
      ensures pb.Valid() && pb.Value() == P.NEW_EVENT.(created := Some(TimestampOf(t)))
      ensures pb.created != null && pb.created !in timestamps && (pb.created in old(timestamps) || fresh(pb.created))
      ensures pb.Repr == {pb, pb.created} && pb.payload == V.NoPayload
    {
      var ts := GetTimestamp();
      ts.seconds := t / NANOS;
      ts.nanos := t % NANOS;
      pb.created := ts;
      pb.Repr := {pb, ts};
    }

    /** The event for `v`, whatever the pools have been through; none, and nothing lost from the pools, for a
        value of another type. */
    method MapToProto(v: AnyEvent) returns (pb: V.Event?)
      requires Valid()
      modifies this, events, timestamps
      ensures Valid()
      ensures pb == null <==> v.Unsupported?
      ensures pb != null ==> pb.Valid() && pb.Value() == ToProto(v)
      ensures pb != null ==> pb !in events && pb.created !in timestamps
      ensures pb != null ==> fresh(pb.Repr - old(events) - old(timestamps))
      ensures fresh(events - old(events)) && fresh(timestamps - old(timestamps))
    {
      hide ToProtoPayload, TimestampOf, CreatedOf;
      var e := GetEvent();
      e.Reset();
      if v.Unsupported? {
        ReleaseEvent(e);
        return null;
      }
      SetCreated(e, CreatedOf(v));
      SetPayload(e, v);
      pb := e;
    }

    /** Gives `pb`, which has none, the payload for `v`. */
    method SetPayload(pb: V.Event, v: AnyEvent)
      requires !v.Unsupported? && pb.Valid() && pb.payload == V.NoPayload
      modifies pb
      ensures pb.Valid() && pb.Value() == old(pb.Value()).(payload := ToProtoPayload(v))
      ensures pb.created == old(pb.created) && fresh(pb.Repr - old(pb.Repr))
    {
      hide ToProtoPayload;
      var payload;
      ghost var parts;
      payload, parts := NewPayload(v);
      pb.payload := payload;
      pb.Repr := pb.Repr + parts;
    }
  }

  method NewMessage(v: D.Message) returns (m: V.Message)
    ensures fresh(m)
    ensures m.Value() == P.Message(v.id, v.length, ToProtoMime(v.mime), v.hash, v.name, v.batchID, v.batchTotal, [])
  {
    m := new V.Message();
    m.id, m.contentLength, m.mimeType := v.id, v.length, ToProtoMime(v.mime);
    m.contentHash, m.name := v.hash, v.name;
    m.batchID, m.batchTotal := v.batchID, v.batchTotal;
  }

  method NewHandshake(v: D.Handshake) returns (h: V.Handshake)
    ensures h.device != null && fresh(h) && fresh(h.device)
    ensures h.Value() ==
      P.Handshake(v.version, Some(P.Device(v.device.name, v.device.arch, v.device.id, [])), v.port, [])
  {
    var d := new V.Device();
    d.name, d.arch, d.id := v.device.name, v.device.arch, v.device.id;
    h := new V.Handshake();
    h.version, h.port, h.device := v.version, v.port, d;
  }

  /** The wrapped message for `v`, on objects of its own. */
  method NewPayload(v: AnyEvent) returns (p: V.Payload, ghost parts: set<object>)
    requires !v.Unsupported?
    ensures fresh(parts) && V.PayloadIn(p, parts) && V.PayloadValue(p, parts) == ToProtoPayload(v)
  {
    match v {
      case MessageEvent(ev) =>
        var m := NewMessage(ev.payload);
        p, parts := V.MessageOf(m), {m};
      case AnnounceEvent(ev) =>
        var a := new V.Announce();
        a.id, a.mimeType, a.contentHash := ev.payload.id, ToProtoMime(ev.payload.mime), ev.payload.hash;
        a.contentLength, a.batchID, a.batchTotal := ev.payload.length, ev.payload.batchID, ev.payload.batchTotal;
        p, parts := V.AnnounceOf(a), {a};
      case RequestEvent(ev) =>
        var r := new V.RequestMessage();
        r.id := ev.payload.id;
        p, parts := V.RequestOf(r), {r};
      case HandshakeEvent(ev) =>
        var h := NewHandshake(ev.payload);
        p, parts := V.HandshakeOf(h), {h, h.device};
    }
  }
}
