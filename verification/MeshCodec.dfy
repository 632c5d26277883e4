/** The mesh and the codec meet: what the mesh has in flight is what the bytes on a stream decode to. */
module MeshCodec {
  import opened Wrappers
  import opened Machine
  import opened Channel
  import opened Node
  import opened Gossip
  import opened Mapper
  import opened Framing
  import D = Domain
  import P = Proto
  import W = Wire

  /** Announces, requests, and messages with a name of less than 2 GiB, fit a frame. */
  lemma MeshEventsAreFramable(v: AnyEvent)
    requires v.AnnounceEvent? || v.RequestEvent? || (v.MessageEvent? && |v.message.payload.name| < 0x8000_0000)
    ensures Framable(v)
  {
    var pb := ToProto(v);
    P.TimestampSizeIsExact(pb.created.value);
    P.PayloadSizeIsExact(pb.payload);
    match v {
      case MessageEvent(_) => P.MessageSizeIsExact(pb.payload.message);
      case AnnounceEvent(_) => P.AnnounceSizeIsExact(pb.payload.announce);
      case RequestEvent(_) => P.RequestSizeIsExact(pb.payload.request);
    }
    hide P.SizeMessage, P.SizeAnnounce, P.SizeRequest, P.SizeTimestamp, P.EncodeMessage, P.EncodeAnnounce,
      P.EncodeRequest, P.EncodeTimestamp, P.NestedSize;
    NestedIsShort(P.InnerSize(pb.payload));
    NestedIsShort(P.SizeTimestamp(pb.created.value));
  }

  lemma NestedIsShort(l: nat)
    requires l < TWO63
    ensures P.NestedSize(l) <= l + 11
  {
    P.NestedSizeIsExact(1, seq(l, _ => 0));
  }

  /** The answer to a request, as its receiver reads it off the stream: the event that the mesh has in flight, and
      then its raw bytes. */
  lemma AnswerOnTheStream(skip: W.Skipper, c: Chan, p: ReqPacket, file: Option<Bytes>)
    requires Reply(c, p.id, file).Some? && |Reply(c, p.id, file).value.0.payload.name| < 0x8000_0000
    ensures
      var (ev, raw) := Reply(c, p.id, file).value;
      var m := Answer(c, p, file).value;
      Framable(MessageEvent(ev))
      && Decoded(skip, Encoded(MessageEvent(ev)) + raw) == Some((MessageEvent(m.ev), m.raw))
  {
    var (ev, raw) := Reply(c, p.id, file).value;
    MeshEventsAreFramable(MessageEvent(ev));
    EventComesThrough(skip, MessageEvent(ev), raw);
    hide Framable, Decoded, Encoded, Reply;
  }

  /** The announces of a broadcast, as their receivers read them. */
  lemma AnnouncementOnTheStream(skip: W.Skipper, cfg: Config, n: D.NodeID, ev: D.EventMessage, p: AnnPacket,
                                rest: Bytes)
    requires p in Announcements(cfg, n, ev)
    ensures Framable(AnnounceEvent(AnnounceOf(ev)))
    ensures Decoded(skip, Encoded(AnnounceEvent(AnnounceOf(ev))) + rest) == Some((AnnounceEvent(p.ev), rest))
  {
    MeshEventsAreFramable(AnnounceEvent(AnnounceOf(ev)));
    EventComesThrough(skip, AnnounceEvent(AnnounceOf(ev)), rest);
    hide Framable, Decoded, Encoded;
  }

  /** A request is read as one for the same id, whoever sent it. */
  lemma RequestOnTheStream(skip: W.Skipper, req: D.EventRequest, rest: Bytes)
    ensures Framable(RequestEvent(req))
    ensures Decoded(skip, Encoded(RequestEvent(req)) + rest)
         == Some((RequestEvent(req.(from := D.Author(req.payload.id))), rest))
  {
    MeshEventsAreFramable(RequestEvent(req));
    EventComesThrough(skip, RequestEvent(req), rest);
    hide Framable, Decoded, Encoded;
  }
}
