/** The events nodes exchange (internal/types/domain), clipboard mime kinds (pkg/mime)
    and the node bits of a message id (pkg/id). */
module Domain {
  import opened Machine

  type NodeID = Int64
  type MessageID = Int64

  /** A point in time: nanoseconds since the Unix epoch, seconds within int64. */
  type Instant = t: int | -TWO63 * 1_000_000_000 <= t < TWO63 * 1_000_000_000

  const MIME_UNKNOWN: Int32 := -1
  const MIME_TEXT: Int32 := 0
  const MIME_IMAGE: Int32 := 1
  const MIME_PATH: Int32 := 2
  const MIME_AUDIO: Int32 := 3
  const MIME_VIDEO: Int32 := 4
  const MIME_BINARY: Int32 := 5

  predicate IsPath(mime: Int32) {
    mime == MIME_PATH
  }

  datatype Event<+T> = Event(from: NodeID, created: Instant, payload: T)

  type EventMessage = Event<Message>
  type EventAnnounce = Event<Announce>
  type EventRequest = Event<Request>
  type EventHandshake = Event<Handshake>

  datatype Message = Message(
    id: MessageID, data: Bytes, mime: Int32, hash: Uint64, length: Uint64,
    name: Bytes, batchID: MessageID, batchTotal: Uint32)
  {
    predicate Zero() {
      id == 0 || hash == 0 || length == 0
    }

    predicate Duplicate(other: Message) {
      id == other.id || (mime == other.mime && hash != 0 && hash == other.hash)
    }

    predicate DuplicateByAnnounce(ann: Announce) {
      id == ann.id || (hash != 0 && hash == ann.hash)
    }

    function ToAnnounce(): Announce {
      Announce(id, mime, hash, length, batchID, batchTotal)
    }
  }

  datatype Announce = Announce(
    id: MessageID, mime: Int32, hash: Uint64, length: Uint64, batchID: MessageID, batchTotal: Uint32)

  datatype Request = Request(id: MessageID)

  datatype Device = Device(id: NodeID, name: Bytes, arch: Bytes)

  datatype Handshake = Handshake(version: Bytes, device: Device, port: Uint32)

  /** The zero value of `domain.EventMessage`, which a fresh channel holds as its last message. */
  const ZERO_MESSAGE := Message(0, [], MIME_TEXT, 0, 0, [], 0, 0)
  const ZERO_EVENT: EventMessage := Event(0, 0, ZERO_MESSAGE)

  /** `(id >> 12) & 1023`: bits 12 to 21 of the id name the node that made it. */
  function Author(id: MessageID): NodeID {
    (id / 4096) % 1024
  }

  /** A snowflake id: milliseconds, then 10 node bits, then 12 sequence bits. */
  function MakeID(millis: nat, node: NodeID, sequence: nat): MessageID
    requires millis < 0x200_0000_0000 && 0 <= node < 1024 && sequence < 4096
  {
    millis * 0x40_0000 + node * 4096 + sequence
  }

  lemma AuthorOfMakeID(millis: nat, node: NodeID, sequence: nat)
    requires millis < 0x200_0000_0000 && 0 <= node < 1024 && sequence < 4096
    ensures Author(MakeID(millis, node, sequence)) == node
  {
    assert MakeID(millis, node, sequence) / 4096 == millis * 1024 + node;
  }

  /** What a mime kind becomes on the wire and back: three kinds are left of seven. */
  function NormalMime(mime: Int32): Int32 {
    if mime == MIME_IMAGE then MIME_IMAGE
    else if mime == MIME_PATH || mime == MIME_AUDIO || mime == MIME_VIDEO || mime == MIME_BINARY then MIME_PATH
    else MIME_TEXT
  }

  /** A message event as its receiver decodes it: sent by the author of its id, without data. */
  function AsReceived(ev: EventMessage): EventMessage {
    Event(Author(ev.payload.id), ev.created, ev.payload.(data := [], mime := NormalMime(ev.payload.mime)))
  }

  function AnnounceAsReceived(ev: EventAnnounce): EventAnnounce {
    Event(Author(ev.payload.id), ev.created, ev.payload.(mime := NormalMime(ev.payload.mime)))
  }
}
