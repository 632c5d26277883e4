/** Bytes that others agree on: the fields of the messages of internal/types/proto as they stand on the wire, frames,
    UTF-8, UTF-16, and what a reader must reject. */
module Samples {
  import opened Wrappers
  import opened Machine
  import opened Varint
  import opened Wire
  import opened Proto
  import Batch
  import Lines
  import Order
  import D = Domain
  import F = Framing
  import M = Mapper
  import T = WinText
  import Utf8

  // ---------------------------------------------------------------- messages on the wire

  /** The example of the Protocol Buffers encoding specification, and the two ends of the range. */
  lemma Varints()
    ensures VarintOf(0) == [0] && VarintOf(300) == [172, 2]
    ensures VarintOf(0xFFFF_FFFF_FFFF_FFFF) == [255, 255, 255, 255, 255, 255, 255, 255, 255, 1]
  {
    assert VarintOf(0xFF) == [255] + VarintOf(1);
    assert VarintOf(0x7FFF) == [255] + VarintOf(0xFF);
    assert VarintOf(0x3F_FFFF) == [255] + VarintOf(0x7FFF);
    assert VarintOf(0x1FFF_FFFF) == [255] + VarintOf(0x3F_FFFF);
    assert VarintOf(0xF_FFFF_FFFF) == [255] + VarintOf(0x1FFF_FFFF);
    assert VarintOf(0x7FF_FFFF_FFFF) == [255] + VarintOf(0xF_FFFF_FFFF);
    assert VarintOf(0x3_FFFF_FFFF_FFFF) == [255] + VarintOf(0x7FF_FFFF_FFFF);
    assert VarintOf(0x1FF_FFFF_FFFF_FFFF) == [255] + VarintOf(0x3_FFFF_FFFF_FFFF);
    assert VarintOf(0xFFFF_FFFF_FFFF_FFFF) == [255] + VarintOf(0x1FF_FFFF_FFFF_FFFF);
  }

  /** Numbers are fields 1 to 4, 6 and 7 of a message, its name is field 5. */
  lemma MessageBytes()
    ensures EncodeMessage(Message(300, 2, 1, 3, [97, 98], 4, 5, []))
         == [8, 172, 2, 16, 2, 24, 1, 32, 3, 42, 2, 97, 98, 48, 4, 56, 5]
  {
  }

  lemma AnnounceBytes()
    ensures EncodeAnnounce(Announce(300, 2, 1, 3, 4, 5, [])) == [8, 172, 2, 16, 2, 24, 1, 32, 3, 40, 4, 48, 5]
  {
  }

  /** A negative id takes ten bytes. */
  lemma RequestBytes()
    ensures EncodeRequest(Request(-1, [])) == [8, 255, 255, 255, 255, 255, 255, 255, 255, 255, 1]
  {
    Varints();
  }

  /** Name and arch of a device are fields 1 and 2, its id is field 3; it is itself field 2 of a handshake. */
  lemma HandshakeBytes()
    ensures EncodeHandshake(Handshake([49], Some(Device([97], [98, 99], 7, [])), 300, []))
         == [10, 1, 49] + [18, 9, 10, 1, 97, 18, 2, 98, 99, 24, 7] + [24, 172, 2]
  {
    DeviceBytes();
    hide EncodeDevice, SizeDevice;
    assert PutBytes(1, [49]) == [10, 1, 49] && PutNumber(3, 300) == [24, 172, 2];
  }

  lemma DeviceBytes()
    ensures EncodeDevice(Device([97], [98, 99], 7, [])) == [10, 1, 97, 18, 2, 98, 99, 24, 7]
  {
  }

  lemma CreatedBytes()
    ensures EncodeCreated(Some(Timestamp(1, 5, []))) == [10, 4, 8, 1, 16, 5]
  {
    assert EncodeTimestamp(Timestamp(1, 5, [])) == [8, 1, 16, 5];
  }

  /** The time is field 1 of an event; a message is field 2, a handshake 3, an announce 4 and a request 6. */
  lemma EventBytes()
    ensures
      var created := Some(Timestamp(1, 5, []));
      && EncodeEvent(Event(created, RequestPayload(Request(7, [])), [])) == [10, 4, 8, 1, 16, 5, 50, 2, 8, 7]
      && EncodeEvent(Event(None, MessagePayload(NEW_MESSAGE), [])) == [18, 0]
      && EncodeEvent(Event(None, HandshakePayload(NEW_HANDSHAKE), [])) == [26, 0]
      && EncodeEvent(Event(None, AnnouncePayload(NEW_ANNOUNCE), [])) == [34, 0]
      && EncodeEvent(Event(None, NoPayload, [])) == []
  {
    CreatedBytes();
    assert EncodeRequest(Request(7, [])) == [8, 7];
    assert EncodeMessage(NEW_MESSAGE) == [] && EncodeHandshake(NEW_HANDSHAKE) == [];
    assert EncodeAnnounce(NEW_ANNOUNCE) == [];
  }

  /** A frame is the length of its body in four bytes, big end first, and the body. */
  lemma FrameBytes()
    ensures F.Frame([7, 8]) == [0, 0, 0, 2, 7, 8] && F.BigEndian(0x0102_0304) == [1, 2, 3, 4]
  {
  }

  // ---------------------------------------------------------------- values on the wire

  /** The kind of an announced content on the wire: text is 0, which is left out, an image 1, and every kind of file
      2. */
  lemma MimeBytes(mime: Int32)
    ensures
      var ann := M.ToProtoPayload(M.AnnounceEvent(D.Event(0, 0, D.Announce(0, mime, 0, 0, 0, 0))));
      && ann.AnnouncePayload?
      && EncodeAnnounce(ann.announce) == (if mime == 1 then [24, 1] else if 2 <= mime <= 5 then [24, 2] else [])
  {
    assert M.ToProtoMime(mime) == if mime == 1 then 1 else if 2 <= mime <= 5 then 2 else 0;
    MimeField();
    hide M.ToProtoMime, PutNumber, ToUint64;
    assert PutNumber(1, ToUint64(0)) == PutNumber(2, 0) == PutNumber(4, 0) == PutNumber(6, 0) == [];
  }

  lemma MimeField()
    ensures ToUint64(0) == 0 && forall num: nat :: 1 <= num <= 15 ==> PutNumber(num, 0) == []
    ensures PutNumber(3, ToUint64(1)) == [24, 1] && PutNumber(3, ToUint64(2)) == [24, 2]
  {
  }

  /** Which property of a message, an announce, a request and a handshake stands in which field. */
  lemma PayloadBytes()
    ensures
      var message := D.Message(300, [9], 1, 3, 2, [97, 98], 4, 5);
      var announce := D.Announce(300, 1, 3, 2, 4, 5);
      var handshake := D.Handshake([49], D.Device(7, [97], [98, 99]), 300);
      && M.ToProtoPayload(M.MessageEvent(D.Event(0, 0, message)))
         == MessagePayload(Message(300, 2, 1, 3, [97, 98], 4, 5, []))
      && M.ToProtoPayload(M.AnnounceEvent(D.Event(0, 0, announce))) == AnnouncePayload(Announce(300, 2, 1, 3, 4, 5, []))
      && M.ToProtoPayload(M.RequestEvent(D.Event(0, 0, D.Request(7)))) == RequestPayload(Request(7, []))
      && M.ToProtoPayload(M.HandshakeEvent(D.Event(0, 0, handshake)))
         == HandshakePayload(Handshake([49], Some(Device([97], [98, 99], 7, [])), 300, []))
  {
  }

  /** A kind that is none of the three is read as text. */
  lemma MimeOfBytes(m: Announce)
    ensures
      var ev := M.ToDomain(Event(None, AnnouncePayload(m), []));
      && ev.Some? && ev.value.AnnounceEvent?
      && ev.value.announce.payload.mime == (if m.mime == 1 then 1 else if m.mime == 2 then 2 else 0)
  {
  }

  /** Nanoseconds are counted forward from the second before, also in front of the epoch. */
  lemma Timestamps()
    ensures M.TimestampOf(1_500_000_000) == Timestamp(1, 500_000_000, [])
    ensures M.TimestampOf(-1) == Timestamp(-1, 999_999_999, [])
    ensures M.AsTime(Some(Timestamp(1, 1_500_000_000, []))) == 2_500_000_000
    ensures M.AsTime(Some(Timestamp(0, -1, []))) == -1 && M.AsTime(None) == 0
  {
  }

  /** A handshake that names no device is from one called "unknown". */
  lemma UnknownDevice()
    ensures
      var unknown: Bytes := [117, 110, 107, 110, 111, 119, 110];
      M.ToDomain(Event(None, HandshakePayload(Handshake([49], None, 80, [])), []))
        == Some(M.HandshakeEvent(D.Event(0, 0, D.Handshake([49], D.Device(0, unknown, unknown), 80))))
  {
  }

  // ---------------------------------------------------------------- what is rejected

  /** A field whose number is 0, whose type ends a group, or whose type is not that of its number, is not decoded,
      whatever its message type and whatever follows: numbers have type 0, strings and messages type 2. */
  lemma MalformedTagFails<A>(skip: Skipper, fmt: Format<A>, m: A, num: nat, wireType: nat, rest: Bytes)
    requires num < 16 && wireType < 8
    requires num == 0 || wireType == 4 || (num in fmt.schema && wireType != if fmt.schema[num].Number? then 0 else 2)
    ensures Decode(skip, fmt, m, [num * 8 + wireType] + rest) == None
  {
    var tag := num * 8 + wireType;
    TagIs(num, wireType, rest);
    hide ReadVarint, TagNumber, TagType;
  }

  lemma TagIs(num: nat, wireType: nat, rest: Bytes)
    requires num < 16 && wireType < 8
    ensures
      var tag := num * 8 + wireType;
      ReadVarint([tag] + rest, 0) == Some((tag, 1)) && TagNumber(tag) == num && TagType(tag) == wireType
  {
  }

  // ---------------------------------------------------------------- text

  /** The examples of RFC 3629 (section 7) and RFC 2781 (section 5), and a byte that is no character. */
  lemma Characters()
    ensures Utf8.EncodeRune(0x41) == [0x41] && Utf8.EncodeRune(0x391) == [0xCE, 0x91]
    ensures Utf8.EncodeRune(0x2262) == [0xE2, 0x89, 0xA2] && Utf8.EncodeRune(0x233B4) == [0xF0, 0xA3, 0x8E, 0xB4]
    ensures T.EncodeRune16(0x41) == [0x41] && T.EncodeRune16(0x12345) == [0xD808, 0xDF45]
    ensures Utf8.Repaired([0xFF]) == [0xEF, 0xBF, 0xBD]
  {
  }

  /** Two parts and one that was refused are two lines, the smaller one first. */
  lemma TwoLines()
    ensures Batch.Joined(map[1 := [66], 2 := [], 3 := [65, 255]]) == [65, 255, 10, 66]
  {
    hide Batch.Joined, Batch.Holders, Order.InByteOrder, Lines.Join;
    var items: map<D.MessageID, Bytes> := map[1 := [66], 2 := [], 3 := [65, 255]];
    var parts := Batch.JoinedIsListInOrder(items);
    var list: seq<Bytes> := [[65, 255], [66]];
    forall part: Bytes ensures multiset(list)[part] == if part == [] then 0 else |Batch.Holders(items, part)| {
      HoldersAre(part);
    }
    ListIsInOrder();
    assert Batch.ListsInOrder(list, items);
    JoinOfTwo(list[0], list[1]);
  }

  lemma HoldersAre(part: Bytes)
    ensures
      Batch.Holders(map[1 := [66], 2 := [], 3 := [65, 255]], part)
      == if part == [65, 255] then {3} else if part == [66] then {1} else if part == [] then {2} else {}
  {
  }

  lemma ListIsInOrder()
    ensures Order.InByteOrder([[65, 255], [66]])
  {
    var a, b: Bytes := [65, 255], [66];
    assert a[..0] == b[..0];
  }

  lemma JoinOfTwo(a: Bytes, b: Bytes)
    ensures Batch.JoinLines([a, b]) == a + [10] + b
  {
    assert [a, b][1..] == [b] && Lines.Join([b], [10]) == b;
  }
}
