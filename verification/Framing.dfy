/** Frames on a stream: pkg/protoutil/encoder.go and internal/protocol/codec.go. A frame is a length of four
    bytes, big end first, and an encoded event. */
module Framing {
  import opened Wrappers
  import opened Machine
  import opened Mapper
  import D = Domain
  import P = Proto
  import R = RoundTrip
  import V = VtProto
  import W = Wire

  const LENGTH := 4

  // ---------------------------------------------------------------- frames

  function BigEndian(n: Uint32): Bytes {
    [n / 0x100_0000, n / 0x1_0000 % 0x100, n / 0x100 % 0x100, n % 0x100]
  }

  function FromBigEndian(b: Bytes): Uint32
    requires |b| == LENGTH
  {
    b[0] as int * 0x100_0000 + b[1] as int * 0x1_0000 + b[2] as int * 0x100 + b[3] as int
  }

  lemma BigEndianRoundTrip(n: Uint32)
    ensures FromBigEndian(BigEndian(n)) == n
  {
    assert n / 0x1_0000 == n / 0x100_0000 * 0x100 + n / 0x1_0000 % 0x100;
    assert n / 0x100 == n / 0x1_0000 * 0x100 + n / 0x100 % 0x100;
  }

  lemma BigEndianOfRead(b: Bytes)
    requires |b| == LENGTH
    ensures BigEndian(FromBigEndian(b)) == b
  {
    var m, b0: int, b1: int, b2: int := FromBigEndian(b), b[0], b[1], b[2];
    assert m / 0x100 == b0 * 0x1_0000 + b1 * 0x100 + b2;
    assert m / 0x1_0000 == b0 * 0x100 + b1;
  }

  /** The length is cut to 32 bits. */
  function Frame(body: Bytes): Bytes {
    BigEndian(|body| % TWO32) + body
  }

  /** `io.ReadFull`: so many bytes and what follows them. */
  function Taken(s: Bytes, n: nat): Option<(Bytes, Bytes)> {
    if n <= |s| then Some((s[..n], s[n..])) else None
  }

  /** The body of the first frame of `s` and what follows the frame. */
  function Unframe(s: Bytes): Option<(Bytes, Bytes)> {
    match Taken(s, LENGTH)
    case None => None
    case Some((header, rest)) => Taken(rest, FromBigEndian(header))
  }

  /** What is read as the frame of `body`: as many bytes as the length cut to 32 bits says. */
  lemma FrameIsReadAs(body: Bytes, rest: Bytes)
    ensures Unframe(Frame(body) + rest) == Some((body[..|body| % TWO32], body[|body| % TWO32..] + rest))
  {
    hide BigEndian, FromBigEndian;
    var s := Frame(body) + rest;
    var n := |body| % TWO32;
    BigEndianRoundTrip(n);
    assert s[..LENGTH] == BigEndian(n) && s[LENGTH..] == body + rest by {
      assert |BigEndian(n)| == LENGTH by { HeaderLength(n); }
    }
    assert (body + rest)[..n] == body[..n] && (body + rest)[n..] == body[n..] + rest;
  }

  /** A frame is read back, and no more than the frame, exactly if its body is shorter than 4 GiB. */
  lemma FrameRoundTrip(body: Bytes, rest: Bytes)
    ensures Unframe(Frame(body) + rest) == Some((body, rest)) <==> |body| < TWO32
  {
    hide Frame, Unframe;
    FrameIsReadAs(body, rest);
    if |body| < TWO32 {
      assert body[..|body|] == body && body[|body|..] + rest == rest;
    }
  }

  /** A body of 4 GiB is read as an empty one, and its bytes are taken for the next frames. */
  lemma FourGigabytesAreReadAsNone()
    ensures var body := seq(TWO32, _ => 0); Unframe(Frame(body)) == Some(([], body))
  {
    hide Frame, Unframe;
    var body := seq(TWO32, _ => 0);
    FrameIsReadAs(body, []);
    assert Frame(body) + [] == Frame(body) && body[..0] == [] && body[0..] + [] == body;
  }

  lemma HeaderLength(n: Uint32)
    ensures |BigEndian(n)| == LENGTH
  {
  }

  /** Whatever is read as a frame is the frame of its body. */
  lemma UnframedWasFramed(s: Bytes)
    requires Unframe(s).Some?
    ensures var (body, rest) := Unframe(s).value; |body| < TWO32 && s == Frame(body) + rest
  {
    hide BigEndian, FromBigEndian;
    BigEndianOfRead(s[..LENGTH]);
    var n := FromBigEndian(s[..LENGTH]);
    var body, rest := s[LENGTH..][..n], s[LENGTH..][n..];
    assert s == s[..LENGTH] + s[LENGTH..] && s[LENGTH..] == body + rest;
    assert n % TWO32 == n;
  }

  /** No strict prefix of a frame is one. */
  lemma FramePrefixFails(body: Bytes, cut: nat)
    requires |body| < TWO32 && cut < |Frame(body)|
    ensures Unframe(Frame(body)[..cut]) == None
  {
    hide BigEndian, FromBigEndian;
    BigEndianRoundTrip(|body|);
    HeaderLength(|body|);
    if LENGTH <= cut {
      assert |body| % TWO32 == |body|;
      assert Frame(body)[..cut][..LENGTH] == BigEndian(|body|);
    }
  }

  // ---------------------------------------------------------------- events in frames

  /** The event fits a frame. */
  predicate Framable(v: AnyEvent) {
    !v.Unsupported? && P.EventFits(ToProto(v)) && P.SizeEvent(ToProto(v)) < TWO32
  }

  /** What `Encode` returns and `WriteEvent` writes. */
  function Encoded(v: AnyEvent): Bytes
    requires !v.Unsupported? && P.EventFits(ToProto(v))
  {
    Frame(P.EncodeEvent(ToProto(v)))
  }

  /** What `DecodeEvent` makes of a stream: the event, and what is left of the stream. */
  function Decoded(skip: W.Skipper, s: Bytes): Option<(AnyEvent, Bytes)> {
    match Unframe(s)
    case None => None
    case Some((body, rest)) =>
      match P.DecodeEvent(skip, P.NEW_EVENT, body)
      case None => None
      case Some(pb) =>
        match ToDomain(pb)
        case None => None
        case Some(v) => Some((v, rest))
  }

  lemma MappedParses(skip: W.Skipper, v: AnyEvent)
    requires !v.Unsupported?
    ensures R.EventParses(skip, ToProto(v))
  {
  }

  /** A written event is read as its receiver should see it, and reading stops where its frame ends. */
  lemma EventComesThrough(skip: W.Skipper, v: AnyEvent, rest: Bytes)
    requires Framable(v)
    ensures Decoded(skip, Encoded(v) + rest) == Some((Received(v), rest))
  {
    hide Unframe, Frame, P.DecodeEvent, P.EncodeEvent, ToDomain, ToProto, Received, R.EventParses, P.EventFits,
      P.SizeEvent;
    P.EventSizeIsExact(ToProto(v));
    MappedParses(skip, v);
    MappedBack(v);
    R.EventRoundTrip(skip, ToProto(v));
    FrameRoundTrip(P.EncodeEvent(ToProto(v)), rest);
  }

  lemma EncodedPrefixFails(skip: W.Skipper, v: AnyEvent, cut: nat)
    requires Framable(v) && cut < |Encoded(v)|
    ensures Decoded(skip, Encoded(v)[..cut]) == None
  {
    P.EventSizeIsExact(ToProto(v));
    FramePrefixFails(P.EncodeEvent(ToProto(v)), cut);
  }

  // ---------------------------------------------------------------- streams of events and raw data

  /** What `WriteContext` puts on a stream: an event, and after a message its content. */
  datatype Item = Item(event: AnyEvent, raw: Bytes)

  function RawLength(v: AnyEvent): nat {
    if v.MessageEvent? then v.message.payload.length else 0
  }

  predicate Writable(item: Item) {
    Framable(item.event) && |item.raw| == RawLength(item.event)
  }

  predicate AllWritable(items: seq<Item>) {
    forall i :: 0 <= i < |items| ==> Writable(items[i])
  }

  function Written(items: seq<Item>): Bytes
    requires AllWritable(items)
  {
    if items == [] then [] else Encoded(items[0].event) + (items[0].raw + Written(items[1..]))
  }

  /** Reading `n` items: each event, and as much content as it says. */
  function ReadItems(skip: W.Skipper, s: Bytes, n: nat): Option<(seq<Item>, Bytes)> {
    if n == 0 then Some(([], s)) else
    match Decoded(skip, s)
    case None => None
    case Some((v, r)) =>
      match Taken(r, RawLength(v))
      case None => None
      case Some((raw, r')) =>
        match ReadItems(skip, r', n - 1)
        case None => None
        case Some((items, rest)) => Some(([Item(v, raw)] + items, rest))
  }

  function ReceivedItems(items: seq<Item>): seq<Item> {
    if items == [] then [] else [items[0].(event := Received(items[0].event))] + ReceivedItems(items[1..])
  }

  /** A message is followed by as many bytes as it says, anything else by none. */
  lemma WritableExactlyWhen(item: Item)
    requires Framable(item.event)
    ensures Writable(item) <==> match item.event
      case MessageEvent(e) => |item.raw| == e.payload.length
      case _ => item.raw == []
  {
    hide Framable;
  }

  lemma ReceivedLength(v: AnyEvent)
    ensures RawLength(Received(v)) == RawLength(v)
  {
  }

  /** Items written back to back are read back, each event as its receiver should see it and the content byte for
      byte, and what follows them is left on the stream. */
  lemma {:induction false} StreamRoundTrip(skip: W.Skipper, items: seq<Item>, rest: Bytes)
    requires AllWritable(items)
    ensures ReadItems(skip, Written(items) + rest, |items|) == Some((ReceivedItems(items), rest))
  {
    hide Decoded, Encoded, Received, RawLength, P.EventFits, P.SizeEvent, ToProto;
    if items == [] {
      assert Written(items) + rest == rest;
    } else {
      var v, raw, tail := items[0].event, items[0].raw, Written(items[1..]) + rest;
      assert Written(items) + rest == Encoded(v) + (raw + tail);
      EventComesThrough(skip, v, raw + tail);
      ReceivedLength(v);
      assert (raw + tail)[..|raw|] == raw && (raw + tail)[|raw|..] == tail;
      StreamRoundTrip(skip, items[1..], rest);
    }
  }

  /** A stream cut short anywhere is not read as the whole. */
  lemma {:induction false} StreamPrefixFails(skip: W.Skipper, items: seq<Item>, cut: nat)
    requires AllWritable(items)
    requires cut < |Written(items)|
    ensures ReadItems(skip, Written(items)[..cut], |items|) == None
  {
    hide Decoded, Encoded, Received, RawLength, P.EventFits, P.SizeEvent, ToProto;
    var v, raw := items[0].event, items[0].raw;
    var frame, tail := Encoded(v), Written(items[1..]);
    var s := Written(items)[..cut];
    if cut < |frame| {
      assert s == frame[..cut];
      EncodedPrefixFails(skip, v, cut);
    } else {
      var r := (raw + tail)[..cut - |frame|];
      assert s == frame + r;
      EventComesThrough(skip, v, r);
      ReceivedLength(v);
      if |raw| <= |r| {
        assert r[|raw|..] == tail[..|r| - |raw|];
        StreamPrefixFails(skip, items[1..], |r| - |raw|);
      }
    }
  }

  // ---------------------------------------------------------------- the code

  class Writer {
    var out: Bytes

    method Write(p: Bytes)
      modifies this
      ensures out == old(out) + p
    {
      out := out + p;
    }
  }

  class Reader {
    var rest: Bytes

    /** `io.ReadFull`: all or an error; an error leaves nothing to read. */
    method ReadFull(n: nat) returns (data: Option<Bytes>)
      modifies this
      ensures match Taken(old(rest), n)
        case None => data == None && rest == []
        case Some((d, r)) => data == Some(d) && rest == r
    {
      if n <= |rest| {
        data := Some(rest[..n]);
        rest := rest[n..];
      } else {
        data, rest := None, [];
      }
    }
  }

  /** `binary.BigEndian.PutUint32` */
  method PutUint32(buf: array<Byte>, n: Uint32)
    requires LENGTH <= buf.Length
    modifies buf
    ensures buf[..LENGTH] == BigEndian(n) && buf[LENGTH..] == old(buf[LENGTH..])
  {
    buf[0], buf[1], buf[2], buf[3] := n / 0x100_0000, n / 0x1_0000 % 0x100, n / 0x100 % 0x100, n % 0x100;
  }

  /** Marshals behind the header, then sets the header, in a buffer of any content. */
  method FillFrame(buf: array<Byte>, src: V.Event, size: nat)
    requires src.Valid() && buf !in src.Repr && P.EventFits(src.Value())
    requires size == P.SizeEvent(src.Value()) && LENGTH + size <= buf.Length
    modifies buf
    ensures buf[..LENGTH + size] == Frame(P.EncodeEvent(src.Value()))
  {
    hide P.EventFits, P.SizeEvent, P.EncodeEvent, src.Valid, src.Value, BigEndian;
    P.EventSizeIsExact(src.Value());
    ghost var body := P.EncodeEvent(src.Value());
    ghost var before := buf[..];
    var n := src.MarshalToSizedBufferVT(buf, LENGTH + size);
    assert buf[..][LENGTH..] == body + before[LENGTH + size..];
    assert buf[LENGTH..] == body + before[LENGTH + size..];
    PutUint32(buf, size % TWO32);
    assert buf[LENGTH..LENGTH + size] == buf[LENGTH..][..size] == body;
    assert buf[..LENGTH + size] == buf[..LENGTH] + buf[LENGTH..LENGTH + size];
  }

  method EncodeBytes(src: V.Event) returns (buf: array<Byte>)
    requires src.Valid() && P.EventFits(src.Value())
    ensures fresh(buf) && buf[..] == Frame(P.EncodeEvent(src.Value()))
  {
    hide P.EventFits, P.SizeEvent, P.EncodeEvent, Frame;
    var size := src.SizeVT();
    buf := new Byte[LENGTH + size];
    FillFrame(buf, src, size);
    assert buf[..] == buf[..LENGTH + size];
  }

  /** A pointer to a slice, as `encodePool` holds them: the first `len` cells of a backing array. */
  class SlicePtr {
    var backing: array<Byte>
    var len: nat

    constructor ()
      ensures fresh(backing) && backing.Length == 2048 && len == LENGTH
    {
      backing, len := new Byte[2048], LENGTH;
    }
  }

  class EncodePool {
    var ptrs: set<SlicePtr>

    constructor ()
      ensures ptrs == {}
    {
      ptrs := {};
    }

    ghost function Backings(): set<object>
      reads this, ptrs
    {
      set p <- ptrs :: p.backing
    }

    method Get() returns (p: SlicePtr)
      modifies this
      ensures ptrs <= old(ptrs) && p !in ptrs
      ensures (p in old(ptrs) && p.backing in old(Backings())) || (fresh(p) && fresh(p.backing))
    {
      var pooled: bool := *;
      if pooled && ptrs != {} {
        p :| p in ptrs;
        assert p.backing in Backings();
        ptrs := ptrs - {p};
      } else {
        p := new SlicePtr();
      }
    }

    method Put(p: SlicePtr)
      modifies this
      ensures ptrs == old(ptrs) + {p}
    {
      ptrs := ptrs + {p};
    }
  }

  /** Writes the frame through a pooled buffer: one that is too small is replaced, one that is used again is
      overwritten, whatever it holds. */
  method EncodeToWriter(w: Writer, pool: EncodePool, src: V.Event)
    requires src.Valid() && P.EventFits(src.Value()) && src.Repr !! pool.Backings()
    requires w !in src.Repr && pool !in src.Repr && pool.ptrs !! src.Repr
    modifies w, pool, pool.ptrs, pool.Backings()
    ensures w.out == old(w.out) + Frame(P.EncodeEvent(old(src.Value())))
    ensures src.Valid() && src.Value() == old(src.Value()) && src.Repr == old(src.Repr)
    ensures fresh(pool.ptrs - old(pool.ptrs))
  {
    hide P.EventFits, P.SizeEvent, P.EncodeEvent, Frame, src.Valid, src.Value;
    var bufPtr := pool.Get();
    var size := src.SizeVT();
    var need := LENGTH + size;
    var buf := bufPtr.backing;
    if buf.Length < need {
      buf := new Byte[need];
    }
    bufPtr.backing, bufPtr.len := buf, need;
    FillFrame(buf, src, size);
    w.Write(buf[..need]);
    pool.Put(bufPtr);
  }

  /** A length and so many bytes, unmarshalled into `dst`, which is blanked first. */
  method DecodeReader(r: Reader, skip: W.Skipper, dst: V.Event) returns (ok: bool)
    requires dst.Valid() && r !in dst.Repr
    modifies r, dst
    ensures dst.Valid() && fresh(dst.Repr - old(dst.Repr))
    ensures match Unframe(old(r.rest))
      case None => !ok
      case Some((body, rest)) =>
        r.rest == rest && P.DecodeEvent(skip, P.NEW_EVENT, body) == if ok then Some(dst.Value()) else None
  {
    hide P.DecodeEvent, FromBigEndian;
    var header := r.ReadFull(LENGTH);
    if header.None? {
      return false;
    }
    var data := r.ReadFull(FromBigEndian(header.value));
    if data.None? {
      return false;
    }
    dst.Reset();
    ok := dst.UnmarshalVT(skip, data.value);
  }

  /** Reads an event through a pooled object, which is blank again when it goes back. */
  method DecodeEvent(pools: Pools, r: Reader, skip: W.Skipper) returns (v: Option<AnyEvent>)
    requires pools.Valid()
    modifies r, pools, pools.events, pools.timestamps
    ensures pools.Valid()
    ensures match Decoded(skip, old(r.rest))
      case None => v == None
      case Some((event, rest)) => v == Some(event) && r.rest == rest
  {
    hide P.DecodeEvent, Unframe, ToDomain;
    var pb := pools.GetEvent();
    var ok := DecodeReader(r, skip, pb);
    v := None;
    if ok {
      v := ToDomainEvent(pb);
    }
    pools.ReleaseEvent(pb);
  }

  /** The type switch of `DecodeEvent` and the `toDomain` functions. */
  method ToDomainEvent(pb: V.Event) returns (v: Option<AnyEvent>)
    requires pb.Valid()
    ensures v == ToDomain(pb.Value())
  {
    var created := 0;
    if pb.created != null {
      created := AsTime(Some(P.Timestamp(pb.created.seconds, pb.created.nanos, [])));
    }
    match pb.payload {
      case NoPayload => v := None;
      case MessageOf(m) =>
        v := Some(MessageEvent(D.Event(D.Author(m.id), created, D.Message(m.id, [], ToDomainMime(m.mimeType),
          m.contentHash, m.contentLength, m.name, m.batchID, m.batchTotal))));
      case HandshakeOf(h) =>
        var d := UNKNOWN_DEVICE;
        if h.device != null {
          d := D.Device(h.device.id, h.device.name, h.device.arch);
        }
        v := Some(HandshakeEvent(D.Event(0, created, D.Handshake(h.version, d, h.port))));
      case AnnounceOf(a) =>
        v := Some(AnnounceEvent(D.Event(D.Author(a.id), created, D.Announce(a.id, ToDomainMime(a.mimeType),
          a.contentHash, a.contentLength, a.batchID, a.batchTotal))));
      case RequestOf(r) =>
        v := Some(RequestEvent(D.Event(D.Author(r.id), created, D.Request(r.id))));
    }
  }

  /** Encodes an event into a new slice; a value of another type is refused. */
  method Encode(pools: Pools, v: AnyEvent) returns (buf: array?<Byte>)
    requires pools.Valid() && (v.Unsupported? || P.EventFits(ToProto(v)))
    modifies pools, pools.events, pools.timestamps
    ensures pools.Valid()
    ensures if v.Unsupported? then buf == null else buf != null && fresh(buf) && buf[..] == Encoded(v)
  {
    hide P.EventFits, P.EncodeEvent, ToProto, Frame;
    var pb := pools.MapToProto(v);
    if pb == null {
      return null;
    }
    buf := EncodeBytes(pb);
    pools.ReleaseEvent(pb);
  }

  /** Writes an event as one frame, the same bytes that `Encode` returns. */
  method WriteEvent(pools: Pools, pool: EncodePool, w: Writer, v: AnyEvent) returns (ok: bool)
    requires pools.Valid() && (v.Unsupported? || P.EventFits(ToProto(v)))
    modifies w, pools, pools.events, pools.timestamps, pool, pool.ptrs, pool.Backings()
    ensures pools.Valid() && ok == !v.Unsupported?
    ensures w.out == old(w.out) + if ok then Encoded(v) else []
  {
    hide P.EventFits, P.EncodeEvent, ToProto, Frame;
    var pb := pools.MapToProto(v);
    if pb == null {
      return false;
    }
    EncodeToWriter(w, pool, pb);
    pools.ReleaseEvent(pb);
    ok := true;
  }
}
