/**
 The meta data of a message (metadata.h) as the object the library keeps: two
 boolean sets and fourteen fields that setters and the reading constructor assign,
 and that fill and size walk over.
 */
module MetaDataObject {
  import opened Basics
  import opened Wire
  import opened BooleanSets
  import opened Buffers
  import opened SlotFormat
  import opened ContentHeader

  /** One step of a running uint32_t total. */
  function AddUint32(total: nat, size: nat): nat {
    (total + size % TWO_TO_THE_32) % TWO_TO_THE_32
  }

  /** StringField<UOctet>::fill */
  method FillText(host: Host, text: bytes, buffer: CopiedBuffer)
    requires buffer.Valid() && buffer.size + 1 + |text| <= buffer.buffer.Length
    modifies buffer`size, buffer.buffer
    ensures buffer.Valid() && buffer.Contents() == old(buffer.Contents()) + EncodeText(text)
  {
    buffer.AddInt(host, UOCTET, |text| % 256);
    buffer.Append(text);
  }

  /** StringField<UOctet>(frame) */
  method ReadText(frame: ReceivedFrame) returns (r: Option<bytes>)
    requires frame.Valid()
    modifies frame`pos
    ensures frame.Valid()
    ensures match DecodeText(old(frame.Rest()))
            case None => r.None?
            case Some((text, n)) => r == Some(text) && frame.pos == old(frame.pos) + n
  {
    ghost var rest := frame.Rest();
    var size :- ReadOctet(frame);
    assert frame.Rest() == rest[1..];
    var data :- frame.NextData(size);
    r := Some(data);
    assert data == rest[1..1 + size];
  }

  /** UOctet(frame) */
  method ReadOctet(frame: ReceivedFrame) returns (r: Option<byte>)
    requires frame.Valid()
    modifies frame`pos
    ensures frame.Valid()
    ensures if |old(frame.Rest())| < 1 then r.None?
            else r == Some(DecodeOctet(old(frame.Rest()))) && frame.pos == old(frame.pos) + 1
  {
    ghost var rest := frame.Rest();
    var octet :- frame.NextInt(UOCTET);
    EncodeInvertsDecodeInt(UOCTET, rest[..1]);
    var b: byte := octet;
    r := Some(b);
  }

  /** Table(frame), through the codec. */
  method ReadTable<T>(c: TableCodec<T>, frame: ReceivedFrame) returns (r: Option<T>)
    requires frame.Valid()
    modifies frame`pos
    ensures frame.Valid()
    ensures match DecodeValue(c, FieldsKind, old(frame.Rest()))
            case None => r.None?
            case Some((v, n)) => r.Some? && v == Fields(r.value) && frame.pos == old(frame.pos) + n
  {
    var parsed :- c.decode(frame.data[frame.pos..]);
    var octets :- frame.NextData(parsed.1);
    r := Some(parsed.0);
  }

  /** The fill of each field type. */
  method FillValue<T>(host: Host, c: TableCodec<T>, v: Value<T>, buffer: CopiedBuffer)
    requires buffer.Valid() && buffer.size + |EncodeValue(c, v)| <= buffer.buffer.Length
    modifies buffer`size, buffer.buffer
    ensures buffer.Valid() && buffer.Contents() == old(buffer.Contents()) + EncodeValue(c, v)
  {
    match v
    case Text(text) => FillText(host, text, buffer);
    case Octet(octet) => buffer.AddInt(host, UOCTET, octet);
    case Stamp(stamp) => buffer.AddInt(host, TIMESTAMP, stamp);
    case Fields(table) => buffer.Append(c.encode(table));
  }

  /** The reading constructor of each field type. */
  method ReadValue<T>(c: TableCodec<T>, kind: Kind, frame: ReceivedFrame) returns (r: Option<Value<T>>)
    requires frame.Valid()
    modifies frame`pos
    ensures frame.Valid()
    ensures r.Some? ==> HasKind(r.value, kind)
    ensures match DecodeValue(c, kind, old(frame.Rest()))
            case None => r.None?
            case Some((v, n)) => r == Some(v) && frame.pos == old(frame.pos) + n
  {
    match kind
    case TextKind =>
      var text :- ReadText(frame);
      r := Some(Text(text));
    case OctetKind =>
      var octet :- ReadOctet(frame);
      r := Some(Octet(octet));
    case StampKind =>
      ghost var rest := frame.Rest();
      var stamp :- frame.NextInt(TIMESTAMP);
      EncodeInvertsDecodeInt(TIMESTAMP, rest[..8]);
      var wide: uint64 := stamp;
      r := Some(Stamp(wide));
    case FieldsKind =>
      var table :- ReadTable(c, frame);
      r := Some(Fields(table));
  }

  /** An announced field is written behind the fields before it, an unannounced one is not. */
  method StoreSlot<T>(host: Host, c: TableCodec<T>, has: bool, v: Value<T>, buffer: CopiedBuffer,
                      ghost flags: seq<bool>, ghost values: seq<Value<T>>, ghost k: nat, ghost before: bytes)
    requires k < |values| && values[k] == v && has == Announced(flags, k)
    requires buffer.Valid()
    requires buffer.Contents() == before + Write(SlotWriter(c, flags), values[..k])
    requires |before| + |Write(SlotWriter(c, flags), values)| <= buffer.buffer.Length
    modifies buffer`size, buffer.buffer
    ensures buffer.Valid()
    ensures buffer.Contents() == before + Write(SlotWriter(c, flags), values[..k + 1])
  {
    WriteOneMore(SlotWriter(c, flags), values, k);
    WriteGrows(SlotWriter(c, flags), values, k + 1);
    Seams(before, Write(SlotWriter(c, flags), values[..k]), WriteSlot(c, flags, k, v));
    if has {
      FillValue(host, c, v, buffer);
    }
  }

  /** An announced field's size is added to the 32-bit running total. */
  method AddSlot(total: nat, has: bool, size: nat, ghost sizes: seq<nat>, ghost k: nat, ghost exact: nat)
    returns (total': nat, ghost exact': nat)
    requires k < |sizes| && sizes[k] == if has then size else 0
    requires total == exact % TWO_TO_THE_32
    ensures exact' == exact + sizes[k] && total' == exact' % TWO_TO_THE_32
  {
    total' := if has then AddUint32(total, size) else total;
    exact' := exact + sizes[k];
  }

  /** Reading the first k properties of the body has succeeded and has taken n octets. */
  ghost predicate ReadSoFar<T>(c: TableCodec<T>, flags: seq<bool>, k: nat, body: bytes, n: int) {
    && SlotFormat.Read(SlotReader(c, flags), k, body).Some?
    && SlotFormat.Read(SlotReader(c, flags), k, body).value.1 == n
  }

  lemma DecodeIsFlagsThenSlots<T>(c: TableCodec<T>, bs: bytes)
    requires |bs| >= 2
    ensures var flags := Booleans(bs[0]) + Booleans(bs[1]);
            Decode(c, bs) == match SlotFormat.Read(SlotReader(c, flags), SLOTS, bs[2..])
                             case None => None
                             case Some((values, n)) => Some((Header(flags, values), 2 + n))
  {
  }

  lemma ShortFrame<T>(c: TableCodec<T>, bs: bytes)
    requires |bs| < 2
    ensures Decode(c, bs).None?
  {
  }

  lemma NothingReadYet<T>(c: TableCodec<T>, flags: seq<bool>, body: bytes)
    ensures ReadSoFar(c, flags, 0, body, 0)
  {
  }

  /** v is what property k of the body says. */
  ghost predicate IsProperty<T>(c: TableCodec<T>, flags: seq<bool>, k: nat, body: bytes, v: Value<T>) {
    && SlotFormat.Read(SlotReader(c, flags), k + 1, body).Some?
    && ValueAt(SlotReader(c, flags), k, body) == v
  }

  /** An announced field is read, an unannounced one keeps its default. */
  method LoadSlot<T>(c: TableCodec<T>, has: bool, k: nat, frame: ReceivedFrame,
                     ghost flags: seq<bool>, ghost start: nat, ghost body: bytes)
    returns (r: Option<Value<T>>)
    requires k < SLOTS && has == Announced(flags, k)
    requires start <= |frame.data| && body == frame.data[start..]
    requires frame.Valid() && ReadSoFar(c, flags, k, body, frame.pos - start)
    modifies frame`pos
    ensures frame.Valid()
    ensures r.Some? ==> HasKind(r.value, KindOf(k))
    ensures r.Some? ==> ReadSoFar(c, flags, k + 1, body, frame.pos - start)
    ensures r.Some? ==> IsProperty(c, flags, k, body, r.value)
    ensures r.None? ==> SlotFormat.Read(SlotReader(c, flags), SLOTS, body).None?
  {
    ghost var n := frame.pos - start;
    ghost var values := SlotFormat.Read(SlotReader(c, flags), k, body).value.0;
    assert frame.Rest() == body[n..];
    if has {
      r := ReadValue(c, KindOf(k), frame);
    } else {
      r := Some(DefaultValue(c, k));
    }
    if r.Some? {
      ReadOneMore(SlotReader(c, flags), k, body, values, n, r.value, frame.pos - start - n);
    } else {
      ReadStops(SlotReader(c, flags), k, SLOTS, body);
    }
  }

  class MetaData<T(!new)> {
    const codec: TableCodec<T>
    const bools1: BooleanSet
    const bools2: BooleanSet
    var contentType: bytes
    var contentEncoding: bytes
    var headers: T
    var deliveryMode: byte
    var priority: byte
    var correlationID: bytes
    var replyTo: bytes
    var expiration: bytes
    var messageID: bytes
    var timestamp: uint64
    var typeName: bytes
    var userID: bytes
    var appID: bytes
    var clusterID: bytes

    ghost predicate Valid() {
      bools1 != bools2
    }

    /** The fields in the order in which they travel. */
    function Values(): (vs: seq<Value<T>>)
      reads this
      ensures |vs| == SLOTS
    {
      [Text(contentType), Text(contentEncoding), Fields(headers), Octet(deliveryMode), Octet(priority),
       Text(correlationID), Text(replyTo), Text(expiration), Text(messageID), Stamp(timestamp),
       Text(typeName), Text(userID), Text(appID), Text(clusterID)]
    }

    function AllFlags(): (fs: seq<bool>)
      reads bools1, bools2
      ensures |fs| == FLAGS
    {
      Flags(bools1.bits) + Flags(bools2.bits)
    }

    /** What the object means: a property list. */
    ghost function State(): (h: Header<T>)
      reads this, bools1, bools2
      ensures WellTyped(h)
    {
      Header(AllFlags(), Values())
    }

    constructor (codec: TableCodec<T>)
      ensures Valid() && fresh(bools1) && fresh(bools2)
      ensures this.codec == codec && State() == DefaultHeader(codec)
    {
      hide Bit;
      this.codec := codec;
      bools1 := new BooleanSet();
      bools2 := new BooleanSet();
      contentType := [];
      contentEncoding := [];
      headers := codec.empty;
      deliveryMode := 0;
      priority := 0;
      correlationID := [];
      replyTo := [];
      expiration := [];
      messageID := [];
      timestamp := 0;
      typeName := [];
      userID := [];
      appID := [];
      clusterID := [];
    }

    predicate HasContentType()
      reads bools1, bools2
      ensures HasContentType() == Announced(AllFlags(), CONTENT_TYPE)
    {
      bools1.Get(7)
    }

    predicate HasContentEncoding()
      reads bools1, bools2
      ensures HasContentEncoding() == Announced(AllFlags(), CONTENT_ENCODING)
    {
      bools1.Get(6)
    }

    predicate HasHeaders()
      reads bools1, bools2
      ensures HasHeaders() == Announced(AllFlags(), HEADERS)
    {
      bools1.Get(5)
    }

    predicate HasDeliveryMode()
      reads bools1, bools2
      ensures HasDeliveryMode() == Announced(AllFlags(), DELIVERY_MODE)
    {
      bools1.Get(4)
    }

    predicate HasPriority()
      reads bools1, bools2
      ensures HasPriority() == Announced(AllFlags(), PRIORITY)
    {
      bools1.Get(3)
    }

    predicate HasCorrelationID()
      reads bools1, bools2
      ensures HasCorrelationID() == Announced(AllFlags(), CORRELATION_ID)
    {
      bools1.Get(2)
    }

    predicate HasReplyTo()
      reads bools1, bools2
      ensures HasReplyTo() == Announced(AllFlags(), REPLY_TO)
    {
      bools1.Get(1)
    }

    predicate HasExpiration()
      reads bools1, bools2
      ensures HasExpiration() == Announced(AllFlags(), EXPIRATION)
    {
      bools1.Get(0)
    }

    predicate HasMessageID()
      reads bools1, bools2
      ensures HasMessageID() == Announced(AllFlags(), MESSAGE_ID)
    {
      bools2.Get(7)
    }

    predicate HasTimestamp()
      reads bools1, bools2
      ensures HasTimestamp() == Announced(AllFlags(), TIME)
    {
      bools2.Get(6)
    }

    predicate HasTypeName()
      reads bools1, bools2
      ensures HasTypeName() == Announced(AllFlags(), TYPE_NAME)
    {
      bools2.Get(5)
    }

    predicate HasUserID()
      reads bools1, bools2
      ensures HasUserID() == Announced(AllFlags(), USER_ID)
    {
      bools2.Get(4)
    }

    predicate HasAppID()
      reads bools1, bools2
      ensures HasAppID() == Announced(AllFlags(), APP_ID)
    {
      bools2.Get(3)
    }

    predicate HasClusterID()
      reads bools1, bools2
      ensures HasClusterID() == Announced(AllFlags(), CLUSTER_ID)
    {
      bools2.Get(2)
    }

    lemma FirstFields()
      ensures AllFlags()[CONTENT_TYPE] == HasContentType() && Values()[CONTENT_TYPE] == Text(contentType)
      ensures AllFlags()[CONTENT_ENCODING] == HasContentEncoding() && Values()[CONTENT_ENCODING] == Text(contentEncoding)
      ensures AllFlags()[HEADERS] == HasHeaders() && Values()[HEADERS] == Fields(headers)
      ensures AllFlags()[DELIVERY_MODE] == HasDeliveryMode() && Values()[DELIVERY_MODE] == Octet(deliveryMode)
      ensures AllFlags()[PRIORITY] == HasPriority() && Values()[PRIORITY] == Octet(priority)
      ensures AllFlags()[CORRELATION_ID] == HasCorrelationID() && Values()[CORRELATION_ID] == Text(correlationID)
      ensures AllFlags()[REPLY_TO] == HasReplyTo() && Values()[REPLY_TO] == Text(replyTo)
      ensures AllFlags()[EXPIRATION] == HasExpiration() && Values()[EXPIRATION] == Text(expiration)
    {
      hide Bit, Flags;
    }

    lemma SecondFields()
      ensures AllFlags()[MESSAGE_ID] == HasMessageID() && Values()[MESSAGE_ID] == Text(messageID)
      ensures AllFlags()[TIME] == HasTimestamp() && Values()[TIME] == Stamp(timestamp)
      ensures AllFlags()[TYPE_NAME] == HasTypeName() && Values()[TYPE_NAME] == Text(typeName)
      ensures AllFlags()[USER_ID] == HasUserID() && Values()[USER_ID] == Text(userID)
      ensures AllFlags()[APP_ID] == HasAppID() && Values()[APP_ID] == Text(appID)
      ensures AllFlags()[CLUSTER_ID] == HasClusterID() && Values()[CLUSTER_ID] == Text(clusterID)
    {
      hide Bit, Flags;
    }

    /** The object on the wire: its two octets of flags, then each field behind its bit. */
    lemma OnTheWire()
      ensures Encode(codec, State()) == [bools1.bits as int, bools2.bits as int] + (
              IfSet(bools1.Get(7), [|contentType| % 256] + contentType)
              + IfSet(bools1.Get(6), [|contentEncoding| % 256] + contentEncoding)
              + IfSet(bools1.Get(5), codec.encode(headers))
              + IfSet(bools1.Get(4), [deliveryMode])
              + IfSet(bools1.Get(3), [priority])
              + IfSet(bools1.Get(2), [|correlationID| % 256] + correlationID)
              + IfSet(bools1.Get(1), [|replyTo| % 256] + replyTo)
              + IfSet(bools1.Get(0), [|expiration| % 256] + expiration)
              + IfSet(bools2.Get(7), [|messageID| % 256] + messageID)
              + IfSet(bools2.Get(6), EncodeInt(TIMESTAMP, timestamp))
              + IfSet(bools2.Get(5), [|typeName| % 256] + typeName)
              + IfSet(bools2.Get(4), [|userID| % 256] + userID)
              + IfSet(bools2.Get(3), [|appID| % 256] + appID)
              + IfSet(bools2.Get(2), [|clusterID| % 256] + clusterID))
    {
      Layout(codec, State());
      OctetOfFlags(bools1.bits);
      OctetOfFlags(bools2.bits);
      assert AllFlags()[..8] == Flags(bools1.bits) && AllFlags()[8..] == Flags(bools2.bits);
      FlagsListed(bools1.bits);
      FlagsListed(bools2.bits);
      hide Encode, OctetOf, Flags, Bit, IfSet;
    }

    lemma SizeFacts(k: nat)
      requires k < SLOTS
      ensures SlotSizes(codec, State())[k] == if AllFlags()[k] then ValueSize(codec, Values()[k]) else 0
    {
    }

    lemma FirstSizes(sizes: seq<nat>)
      requires sizes == SlotSizes(codec, State())
      ensures sizes[CONTENT_TYPE] == if HasContentType() then 1 + |contentType| else 0
      ensures sizes[CONTENT_ENCODING] == if HasContentEncoding() then 1 + |contentEncoding| else 0
      ensures sizes[HEADERS] == if HasHeaders() then codec.size(headers) else 0
      ensures sizes[DELIVERY_MODE] == if HasDeliveryMode() then 1 else 0
      ensures sizes[PRIORITY] == if HasPriority() then 1 else 0
      ensures sizes[CORRELATION_ID] == if HasCorrelationID() then 1 + |correlationID| else 0
      ensures sizes[REPLY_TO] == if HasReplyTo() then 1 + |replyTo| else 0
      ensures sizes[EXPIRATION] == if HasExpiration() then 1 + |expiration| else 0
    {
      hide Bit, Values, AllFlags, SlotSizes;
      FirstFields();
      forall k: nat | k < 8 ensures sizes[k] == if AllFlags()[k] then ValueSize(codec, Values()[k]) else 0 {
        SizeFacts(k);
      }
    }

    lemma SecondSizes(sizes: seq<nat>)
      requires sizes == SlotSizes(codec, State())
      ensures sizes[MESSAGE_ID] == if HasMessageID() then 1 + |messageID| else 0
      ensures sizes[TIME] == if HasTimestamp() then 8 else 0
      ensures sizes[TYPE_NAME] == if HasTypeName() then 1 + |typeName| else 0
      ensures sizes[USER_ID] == if HasUserID() then 1 + |userID| else 0
      ensures sizes[APP_ID] == if HasAppID() then 1 + |appID| else 0
      ensures sizes[CLUSTER_ID] == if HasClusterID() then 1 + |clusterID| else 0
    {
      hide Bit, Values, AllFlags, SlotSizes;
      SecondFields();
      forall k: nat | 8 <= k < SLOTS ensures sizes[k] == if AllFlags()[k] then ValueSize(codec, Values()[k]) else 0 {
        SizeFacts(k);
      }
    }

    method SetContentType(value: bytes)
      requires Valid()
      modifies this`contentType, bools1
      ensures State() == Apply(old(State()), SetField(CONTENT_TYPE, Text(value)))
    {
      contentType := value;
      bools1.Set(7, true);
    }

    method SetContentEncoding(value: bytes)
      requires Valid()
      modifies this`contentEncoding, bools1
      ensures State() == Apply(old(State()), SetField(CONTENT_ENCODING, Text(value)))
    {
      contentEncoding := value;
      bools1.Set(6, true);
    }

    method SetHeaders(value: T)
      requires Valid()
      modifies this`headers, bools1
      ensures State() == Apply(old(State()), SetField(HEADERS, Fields(value)))
    {
      headers := value;
      bools1.Set(5, true);
    }

    method SetDeliveryMode(value: byte)
      requires Valid()
      modifies this`deliveryMode, bools1
      ensures State() == Apply(old(State()), SetField(DELIVERY_MODE, Octet(value)))
    {
      deliveryMode := value;
      bools1.Set(4, true);
    }

    method SetPriority(value: byte)
      requires Valid()
      modifies this`priority, bools1
      ensures State() == Apply(old(State()), SetField(PRIORITY, Octet(value)))
    {
      priority := value;
      bools1.Set(3, true);
    }

    method SetCorrelationID(value: bytes)
      requires Valid()
      modifies this`correlationID, bools1
      ensures State() == Apply(old(State()), SetField(CORRELATION_ID, Text(value)))
    {
      correlationID := value;
      bools1.Set(2, true);
    }

    method SetReplyTo(value: bytes)
      requires Valid()
      modifies this`replyTo, bools1
      ensures State() == Apply(old(State()), SetField(REPLY_TO, Text(value)))
    {
      replyTo := value;
      bools1.Set(1, true);
    }

    method SetExpiration(value: bytes)
      requires Valid()
      modifies this`expiration, bools1
      ensures State() == Apply(old(State()), SetField(EXPIRATION, Text(value)))
    {
      expiration := value;
      bools1.Set(0, true);
    }

    method SetMessageID(value: bytes)
      requires Valid()
      modifies this`messageID, bools2
      ensures State() == Apply(old(State()), SetField(MESSAGE_ID, Text(value)))
    {
      messageID := value;
      bools2.Set(7, true);
    }

    method SetTimestamp(value: uint64)
      requires Valid()
      modifies this`timestamp, bools2
      ensures State() == Apply(old(State()), SetField(TIME, Stamp(value)))
    {
      timestamp := value;
      bools2.Set(6, true);
    }

    method SetTypeName(value: bytes)
      requires Valid()
      modifies this`typeName, bools2
      ensures State() == Apply(old(State()), SetField(TYPE_NAME, Text(value)))
    {
      typeName := value;
      bools2.Set(5, true);
    }

    method SetUserID(value: bytes)
      requires Valid()
      modifies this`userID, bools2
      ensures State() == Apply(old(State()), SetField(USER_ID, Text(value)))
    {
      userID := value;
      bools2.Set(4, true);
    }

    method SetAppID(value: bytes)
      requires Valid()
      modifies this`appID, bools2
      ensures State() == Apply(old(State()), SetField(APP_ID, Text(value)))
    {
      appID := value;
      bools2.Set(3, true);
    }

    method SetClusterID(value: bytes)
      requires Valid()
      modifies this`clusterID, bools2
      ensures State() == Apply(old(State()), SetField(CLUSTER_ID, Text(value)))
    {
      clusterID := value;
      bools2.Set(2, true);
    }

    method SetPersistent(value: bool)
      requires Valid()
      modifies this`deliveryMode, bools1
      ensures State() == Apply(old(State()), Change.SetPersistent(value))
    {
      if value {
        SetDeliveryMode(2);
      } else {
        deliveryMode := 0;
        bools1.Set(4, false);
      }
    }

    /** Any one setter call. */
    method Perform(change: Change<T>)
      requires Valid() && Legal(change)
      modifies this, bools1, bools2
      ensures State() == Apply(old(State()), change)
    {
      hide Apply, Values, AllFlags, Bit;
      match change
      case SetPersistent(on) => SetPersistent(on);
      case SetField(slot, value) =>
        if slot == CONTENT_TYPE { SetContentType(value.text); }
        else if slot == CONTENT_ENCODING { SetContentEncoding(value.text); }
        else if slot == HEADERS { SetHeaders(value.table); }
        else if slot == DELIVERY_MODE { SetDeliveryMode(value.octet); }
        else if slot == PRIORITY { SetPriority(value.octet); }
        else if slot == CORRELATION_ID { SetCorrelationID(value.text); }
        else if slot == REPLY_TO { SetReplyTo(value.text); }
        else if slot == EXPIRATION { SetExpiration(value.text); }
        else if slot == MESSAGE_ID { SetMessageID(value.text); }
        else if slot == TIME { SetTimestamp(value.stamp); }
        else if slot == TYPE_NAME { SetTypeName(value.text); }
        else if slot == USER_ID { SetUserID(value.text); }
        else if slot == APP_ID { SetAppID(value.text); }
        else { SetClusterID(value.text); }
    }

    /** The size as the uint32_t the source adds up, flag by flag. */
    method Size() returns (result: nat)
      requires Lawful(codec)
      ensures result == |Encode(codec, State())| % TWO_TO_THE_32
      ensures result == |Encode(codec, State())| <==> 2 + Sum(SlotSizes(codec, State()), SLOTS) < TWO_TO_THE_32
    {
      ghost var sizes := SlotSizes(codec, State());
      ghost var exact := 2;
      result, exact := SizeOfFirst(sizes);
      result, exact := SizeOfSecond(result, sizes, exact);
      SumOfAll(sizes);
      EncodedLength(codec, State());
    }

    /** The properties flagged in the first octet. */
    method SizeOfFirst(ghost sizes: seq<nat>) returns (result: nat, ghost exact: nat)
      requires sizes == SlotSizes(codec, State())
      ensures exact == 2 + sizes[0] + sizes[1] + sizes[2] + sizes[3] + sizes[4] + sizes[5] + sizes[6] + sizes[7]
      ensures result == exact % TWO_TO_THE_32
    {
      hide Bit, Values, AllFlags, SlotSizes;
      FirstSizes(sizes);
      result, exact := 2, 2;
      result, exact := AddSlot(result, HasExpiration(), 1 + |expiration|, sizes, EXPIRATION, exact);
      result, exact := AddSlot(result, HasReplyTo(), 1 + |replyTo|, sizes, REPLY_TO, exact);
      result, exact := AddSlot(result, HasCorrelationID(), 1 + |correlationID|, sizes, CORRELATION_ID, exact);
      result, exact := AddSlot(result, HasPriority(), 1, sizes, PRIORITY, exact);
      result, exact := AddSlot(result, HasDeliveryMode(), 1, sizes, DELIVERY_MODE, exact);
      result, exact := AddSlot(result, HasHeaders(), codec.size(headers), sizes, HEADERS, exact);
      result, exact := AddSlot(result, HasContentEncoding(), 1 + |contentEncoding|, sizes, CONTENT_ENCODING, exact);
      result, exact := AddSlot(result, HasContentType(), 1 + |contentType|, sizes, CONTENT_TYPE, exact);
    }

    /** The properties flagged in the second octet. */
    method SizeOfSecond(total: nat, ghost sizes: seq<nat>, ghost before: nat) returns (result: nat, ghost exact: nat)
      requires sizes == SlotSizes(codec, State())
      requires total == before % TWO_TO_THE_32
      ensures exact == before + sizes[8] + sizes[9] + sizes[10] + sizes[11] + sizes[12] + sizes[13]
      ensures result == exact % TWO_TO_THE_32
    {
      hide Bit, Values, AllFlags, SlotSizes;
      SecondSizes(sizes);
      result, exact := total, before;
      result, exact := AddSlot(result, HasClusterID(), 1 + |clusterID|, sizes, CLUSTER_ID, exact);
      result, exact := AddSlot(result, HasAppID(), 1 + |appID|, sizes, APP_ID, exact);
      result, exact := AddSlot(result, HasUserID(), 1 + |userID|, sizes, USER_ID, exact);
      result, exact := AddSlot(result, HasTypeName(), 1 + |typeName|, sizes, TYPE_NAME, exact);
      result, exact := AddSlot(result, HasTimestamp(), 8, sizes, TIME, exact);
      result, exact := AddSlot(result, HasMessageID(), 1 + |messageID|, sizes, MESSAGE_ID, exact);
    }

    /** Write the property list behind what the buffer already holds. */
    method Fill(host: Host, buffer: CopiedBuffer)
      requires buffer.Valid() && buffer.size + |Encode(codec, State())| <= buffer.buffer.Length
      modifies buffer`size, buffer.buffer
      ensures buffer.Valid() && buffer.Contents() == old(buffer.Contents()) + Encode(codec, old(State()))
    {
      hide Bit, Values, AllFlags, SlotWriter, Write, FlagBytes;
      ghost var fs, vs := AllFlags(), Values();
      ghost var before := buffer.Contents() + FlagBytes(fs);
      assert Encode(codec, State()) == FlagBytes(fs) + Write(SlotWriter(codec, fs), vs);
      FillFlags(host, buffer);
      WriteNone(SlotWriter(codec, fs), vs);
      FillFirst(host, buffer, fs, vs, before);
      FillSecond(host, buffer, fs, vs, before);
      assert vs[..SLOTS] == vs;
    }

    /** The two boolean sets are always present. */
    method FillFlags(host: Host, buffer: CopiedBuffer)
      requires buffer.Valid() && buffer.size + 2 <= buffer.buffer.Length
      modifies buffer`size, buffer.buffer
      ensures buffer.Valid() && buffer.Contents() == old(buffer.Contents()) + FlagBytes(old(AllFlags()))
    {
      var first := bools1.Value();
      var second := bools2.Value();
      assert AllFlags()[..8] == Flags(bools1.bits) && AllFlags()[8..] == Flags(bools2.bits);
      buffer.AddInt(host, UOCTET, first);
      buffer.AddInt(host, UOCTET, second);
    }

    method FillFirst(host: Host, buffer: CopiedBuffer,
                     ghost fs: seq<bool>, ghost vs: seq<Value<T>>, ghost before: bytes)
      requires fs == AllFlags() && vs == Values()
      requires buffer.Valid()
      requires buffer.Contents() == before + Write(SlotWriter(codec, fs), vs[..0])
      requires |before| + |Write(SlotWriter(codec, fs), vs)| <= buffer.buffer.Length
      modifies buffer`size, buffer.buffer
      ensures buffer.Valid()
      ensures buffer.Contents() == before + Write(SlotWriter(codec, fs), vs[..8])
    {
      hide Bit, Values, AllFlags, SlotWriter, Write;
      FirstFields();
      StoreSlot(host, codec, HasContentType(), Text(contentType), buffer, fs, vs, CONTENT_TYPE, before);
      StoreSlot(host, codec, HasContentEncoding(), Text(contentEncoding), buffer, fs, vs, CONTENT_ENCODING, before);
      StoreSlot(host, codec, HasHeaders(), Fields(headers), buffer, fs, vs, HEADERS, before);
      StoreSlot(host, codec, HasDeliveryMode(), Octet(deliveryMode), buffer, fs, vs, DELIVERY_MODE, before);
      StoreSlot(host, codec, HasPriority(), Octet(priority), buffer, fs, vs, PRIORITY, before);
      StoreSlot(host, codec, HasCorrelationID(), Text(correlationID), buffer, fs, vs, CORRELATION_ID, before);
      StoreSlot(host, codec, HasReplyTo(), Text(replyTo), buffer, fs, vs, REPLY_TO, before);
      StoreSlot(host, codec, HasExpiration(), Text(expiration), buffer, fs, vs, EXPIRATION, before);
    }

    method FillSecond(host: Host, buffer: CopiedBuffer,
                     ghost fs: seq<bool>, ghost vs: seq<Value<T>>, ghost before: bytes)
      requires fs == AllFlags() && vs == Values()
      requires buffer.Valid()
      requires buffer.Contents() == before + Write(SlotWriter(codec, fs), vs[..8])
      requires |before| + |Write(SlotWriter(codec, fs), vs)| <= buffer.buffer.Length
      modifies buffer`size, buffer.buffer
      ensures buffer.Valid()
      ensures buffer.Contents() == before + Write(SlotWriter(codec, fs), vs[..SLOTS])
    {
      hide Bit, Values, AllFlags, SlotWriter, Write;
      SecondFields();
      StoreSlot(host, codec, HasMessageID(), Text(messageID), buffer, fs, vs, MESSAGE_ID, before);
      StoreSlot(host, codec, HasTimestamp(), Stamp(timestamp), buffer, fs, vs, TIME, before);
      StoreSlot(host, codec, HasTypeName(), Text(typeName), buffer, fs, vs, TYPE_NAME, before);
      StoreSlot(host, codec, HasUserID(), Text(userID), buffer, fs, vs, USER_ID, before);
      StoreSlot(host, codec, HasAppID(), Text(appID), buffer, fs, vs, APP_ID, before);
      StoreSlot(host, codec, HasClusterID(), Text(clusterID), buffer, fs, vs, CLUSTER_ID, before);
    }

    /** The constructor on incoming data; None where the frame ends before the property list does. */
    static method Read(codec: TableCodec<T>, frame: ReceivedFrame) returns (r: Option<MetaData<T>>)
      requires frame.Valid()
      modifies frame`pos
      ensures frame.Valid()
      ensures match Decode(codec, old(frame.Rest()))
              case None => r.None?
              case Some((h, n)) =>
                && r.Some? && fresh(r.value) && fresh(r.value.bools1) && fresh(r.value.bools2)
                && r.value.Valid() && r.value.codec == codec
                && r.value.State() == h && frame.pos == old(frame.pos) + n
    {
      hide Bit, SlotReader, SlotFormat.Read, Decode;
      var m := new MetaData<T>(codec);
      ghost var rest := frame.Rest();
      if |rest| < 2 {
        ShortFrame(codec, rest);
      } else {
        DecodeIsFlagsThenSlots(codec, rest);
      }
      var flags :- m.ReadFlags(frame);
      var fields :- m.ReadFields(frame, rest[2..]);
      r := Some(m);
    }

    /** The properties, once the flags are known. */
    method ReadFields(frame: ReceivedFrame, ghost body: bytes) returns (r: Option<()>)
      requires frame.Valid() && body == frame.Rest()
      modifies this, frame`pos
      ensures frame.Valid()
      ensures match SlotFormat.Read(SlotReader(codec, AllFlags()), SLOTS, body)
              case None => r.None?
              case Some((values, n)) => r.Some? && Values() == values && frame.pos == old(frame.pos) + n
    {
      hide Bit, SlotReader, IsProperty, SlotFormat.Read, ReadSoFar;
      ghost var fs, start := AllFlags(), frame.pos;
      NothingReadYet(codec, fs, body);
      var content :- ReadContent(frame, fs, start, body);
      var routing :- ReadRouting(frame, fs, start, body);
      var identity :- ReadIdentity(frame, fs, start, body);
      var origin :- ReadOrigin(frame, fs, start, body);
      FieldsAreTheProperties(fs, body, frame.pos - start);
      r := Some(());
    }

    method ReadFlags(frame: ReceivedFrame) returns (r: Option<()>)
      requires Valid() && frame.Valid()
      modifies bools1, bools2, frame`pos
      ensures frame.Valid()
      ensures if |old(frame.Rest())| < 2 then r.None?
              else
                && r.Some? && frame.pos == old(frame.pos) + 2
                && frame.data[frame.pos..] == old(frame.Rest())[2..]
                && AllFlags() == Booleans(old(frame.Rest())[0]) + Booleans(old(frame.Rest())[1])
    {
      ghost var body := frame.Rest();
      var first :- ReadOctet(frame);
      DecodeOctetIsByte(body);
      assert frame.Rest() == body[1..];
      var second :- ReadOctet(frame);
      DecodeOctetIsByte(body[1..]);
      bools1.Load(first);
      bools2.Load(second);
      r := Some(());
    }

    method ReadContent(frame: ReceivedFrame, ghost fs: seq<bool>, ghost start: nat, ghost body: bytes)
      returns (r: Option<()>)
      requires fs == AllFlags()
      requires start <= |frame.data| && body == frame.data[start..]
      requires frame.Valid() && ReadSoFar(codec, fs, 0, body, frame.pos - start)
      modifies `contentType, `contentEncoding, `headers, `deliveryMode, frame`pos
      ensures frame.Valid()
      ensures r.None? ==> SlotFormat.Read(SlotReader(codec, fs), SLOTS, body).None?
      ensures r.Some? ==> ReadSoFar(codec, fs, 4, body, frame.pos - start)
      ensures r.Some? ==> IsProperty(codec, fs, CONTENT_TYPE, body, Text(contentType))
      ensures r.Some? ==> IsProperty(codec, fs, CONTENT_ENCODING, body, Text(contentEncoding))
      ensures r.Some? ==> IsProperty(codec, fs, HEADERS, body, Fields(headers))
      ensures r.Some? ==> IsProperty(codec, fs, DELIVERY_MODE, body, Octet(deliveryMode))
    {
      hide Bit, AllFlags, Values, SlotReader, SlotFormat.Read, ReadSoFar, IsProperty;
      FirstFields();
      var v0 :- LoadSlot(codec, HasContentType(), CONTENT_TYPE, frame, fs, start, body);
      contentType := v0.text;
      var v1 :- LoadSlot(codec, HasContentEncoding(), CONTENT_ENCODING, frame, fs, start, body);
      contentEncoding := v1.text;
      var v2 :- LoadSlot(codec, HasHeaders(), HEADERS, frame, fs, start, body);
      headers := v2.table;
      var v3 :- LoadSlot(codec, HasDeliveryMode(), DELIVERY_MODE, frame, fs, start, body);
      deliveryMode := v3.octet;
      r := Some(());
    }

    method ReadRouting(frame: ReceivedFrame, ghost fs: seq<bool>, ghost start: nat, ghost body: bytes)
      returns (r: Option<()>)
      requires fs == AllFlags()
      requires start <= |frame.data| && body == frame.data[start..]
      requires frame.Valid() && ReadSoFar(codec, fs, 4, body, frame.pos - start)
      modifies `priority, `correlationID, `replyTo, `expiration, frame`pos
      ensures frame.Valid()
      ensures r.None? ==> SlotFormat.Read(SlotReader(codec, fs), SLOTS, body).None?
      ensures r.Some? ==> ReadSoFar(codec, fs, 8, body, frame.pos - start)
      ensures r.Some? ==> IsProperty(codec, fs, PRIORITY, body, Octet(priority))
      ensures r.Some? ==> IsProperty(codec, fs, CORRELATION_ID, body, Text(correlationID))
      ensures r.Some? ==> IsProperty(codec, fs, REPLY_TO, body, Text(replyTo))
      ensures r.Some? ==> IsProperty(codec, fs, EXPIRATION, body, Text(expiration))
    {
      hide Bit, AllFlags, Values, SlotReader, SlotFormat.Read, ReadSoFar, IsProperty;
      FirstFields();
      var v4 :- LoadSlot(codec, HasPriority(), PRIORITY, frame, fs, start, body);
      priority := v4.octet;
      var v5 :- LoadSlot(codec, HasCorrelationID(), CORRELATION_ID, frame, fs, start, body);
      correlationID := v5.text;
      var v6 :- LoadSlot(codec, HasReplyTo(), REPLY_TO, frame, fs, start, body);
      replyTo := v6.text;
      var v7 :- LoadSlot(codec, HasExpiration(), EXPIRATION, frame, fs, start, body);
      expiration := v7.text;
      r := Some(());
    }

    method ReadIdentity(frame: ReceivedFrame, ghost fs: seq<bool>, ghost start: nat, ghost body: bytes)
      returns (r: Option<()>)
      requires fs == AllFlags()
      requires start <= |frame.data| && body == frame.data[start..]
      requires frame.Valid() && ReadSoFar(codec, fs, 8, body, frame.pos - start)
      modifies `messageID, `timestamp, `typeName, frame`pos
      ensures frame.Valid()
      ensures r.None? ==> SlotFormat.Read(SlotReader(codec, fs), SLOTS, body).None?
      ensures r.Some? ==> ReadSoFar(codec, fs, 11, body, frame.pos - start)
      ensures r.Some? ==> IsProperty(codec, fs, MESSAGE_ID, body, Text(messageID))
      ensures r.Some? ==> IsProperty(codec, fs, TIME, body, Stamp(timestamp))
      ensures r.Some? ==> IsProperty(codec, fs, TYPE_NAME, body, Text(typeName))
    {
      hide Bit, AllFlags, Values, SlotReader, SlotFormat.Read, ReadSoFar, IsProperty;
      SecondFields();
      var v8 :- LoadSlot(codec, HasMessageID(), MESSAGE_ID, frame, fs, start, body);
      messageID := v8.text;
      var v9 :- LoadSlot(codec, HasTimestamp(), TIME, frame, fs, start, body);
      timestamp := v9.stamp;
      var v10 :- LoadSlot(codec, HasTypeName(), TYPE_NAME, frame, fs, start, body);
      typeName := v10.text;
      r := Some(());
    }

    method ReadOrigin(frame: ReceivedFrame, ghost fs: seq<bool>, ghost start: nat, ghost body: bytes)
      returns (r: Option<()>)
      requires fs == AllFlags()
      requires start <= |frame.data| && body == frame.data[start..]
      requires frame.Valid() && ReadSoFar(codec, fs, 11, body, frame.pos - start)
      modifies `userID, `appID, `clusterID, frame`pos
      ensures frame.Valid()
      ensures r.None? ==> SlotFormat.Read(SlotReader(codec, fs), SLOTS, body).None?
      ensures r.Some? ==> ReadSoFar(codec, fs, 14, body, frame.pos - start)
      ensures r.Some? ==> IsProperty(codec, fs, USER_ID, body, Text(userID))
      ensures r.Some? ==> IsProperty(codec, fs, APP_ID, body, Text(appID))
      ensures r.Some? ==> IsProperty(codec, fs, CLUSTER_ID, body, Text(clusterID))
    {
      hide Bit, AllFlags, Values, SlotReader, SlotFormat.Read, ReadSoFar, IsProperty;
      SecondFields();
      var v11 :- LoadSlot(codec, HasUserID(), USER_ID, frame, fs, start, body);
      userID := v11.text;
      var v12 :- LoadSlot(codec, HasAppID(), APP_ID, frame, fs, start, body);
      appID := v12.text;
      var v13 :- LoadSlot(codec, HasClusterID(), CLUSTER_ID, frame, fs, start, body);
      clusterID := v13.text;
      r := Some(());
    }

    /** Fourteen fields that are what the frame says make up the list the frame says. */
    lemma FieldsAreTheProperties(fs: seq<bool>, body: bytes, n: int)
      requires ReadSoFar(codec, fs, SLOTS, body, n)
      requires IsProperty(codec, fs, CONTENT_TYPE, body, Text(contentType))
      requires IsProperty(codec, fs, CONTENT_ENCODING, body, Text(contentEncoding))
      requires IsProperty(codec, fs, HEADERS, body, Fields(headers))
      requires IsProperty(codec, fs, DELIVERY_MODE, body, Octet(deliveryMode))
      requires IsProperty(codec, fs, PRIORITY, body, Octet(priority))
      requires IsProperty(codec, fs, CORRELATION_ID, body, Text(correlationID))
      requires IsProperty(codec, fs, REPLY_TO, body, Text(replyTo))
      requires IsProperty(codec, fs, EXPIRATION, body, Text(expiration))
      requires IsProperty(codec, fs, MESSAGE_ID, body, Text(messageID))
      requires IsProperty(codec, fs, TIME, body, Stamp(timestamp))
      requires IsProperty(codec, fs, TYPE_NAME, body, Text(typeName))
      requires IsProperty(codec, fs, USER_ID, body, Text(userID))
      requires IsProperty(codec, fs, APP_ID, body, Text(appID))
      requires IsProperty(codec, fs, CLUSTER_ID, body, Text(clusterID))
      ensures SlotFormat.Read(SlotReader(codec, fs), SLOTS, body).Some?
      ensures SlotFormat.Read(SlotReader(codec, fs), SLOTS, body).value == (Values(), n)
    {
      hide SlotReader;
      var vs := Values();
      forall k: nat | k < SLOTS
        ensures vs[k] == SlotFormat.Read(SlotReader(codec, fs), SLOTS, body).value.0[k]
      {
        ReadPrefix(SlotReader(codec, fs), k, SLOTS, body);
      }
      assert SlotFormat.Read(SlotReader(codec, fs), SLOTS, body).value.0 == vs;
    }
  }

  lemma SumOfAll(s: seq<nat>)
    requires |s| == SLOTS
    ensures Sum(s, SLOTS) == s[0] + s[1] + s[2] + s[3] + s[4] + s[5] + s[6] + s[7]
                           + s[8] + s[9] + s[10] + s[11] + s[12] + s[13]
  {
    assert Sum(s, 1) == Sum(s, 0) + s[0];
    assert Sum(s, 2) == Sum(s, 1) + s[1];
    assert Sum(s, 3) == Sum(s, 2) + s[2];
    assert Sum(s, 4) == Sum(s, 3) + s[3];
    assert Sum(s, 5) == Sum(s, 4) + s[4];
    assert Sum(s, 6) == Sum(s, 5) + s[5];
    assert Sum(s, 7) == Sum(s, 6) + s[6];
    assert Sum(s, 8) == Sum(s, 7) + s[7];
    assert Sum(s, 9) == Sum(s, 8) + s[8];
    assert Sum(s, 10) == Sum(s, 9) + s[9];
    assert Sum(s, 11) == Sum(s, 10) + s[10];
    assert Sum(s, 12) == Sum(s, 11) + s[11];
    assert Sum(s, 13) == Sum(s, 12) + s[12];
    assert Sum(s, 14) == Sum(s, 13) + s[13];
  }

  /**
   CopiedBuffer(frame) for a frame that is a property list: allocate the total size, which is a
   uint32_t, fill it, and close it with the end-of-frame octet unless still negotiating.
   */
  method CopyFrame<T(!new)>(host: Host, m: MetaData<T>, needsSeparator: bool) returns (buffer: CopiedBuffer)
    requires m.Valid() && Lawful(m.codec)
    requires |Encode(m.codec, m.State())| + (if needsSeparator then 1 else 0) < TWO_TO_THE_32
    ensures fresh(buffer) && fresh(buffer.buffer) && buffer.Valid() && buffer.size == buffer.buffer.Length
    ensures buffer.Contents() == Encode(m.codec, m.State()) + if needsSeparator then [206] else []
  {
    hide Encode, Lawful, MetaData.State, SlotSizes, Sum;
    var size := m.Size();
    var totalSize := if needsSeparator then AddUint32(size, 1) else size;
    buffer := new CopiedBuffer(totalSize);
    m.Fill(host, buffer);
    if needsSeparator {
      OctetIsByte(END_OF_FRAME);
      buffer.AddInt(host, UOCTET, END_OF_FRAME);
    }
  }

  /** A default object after any sequence of setter calls. */
  method Configured<T(!new)>(codec: TableCodec<T>, changes: seq<Change<T>>) returns (m: MetaData<T>)
    requires forall change :: change in changes ==> Legal(change)
    ensures fresh(m) && m.Valid() && m.codec == codec && m.State() == Run(codec, changes)
  {
    hide Apply;
    m := new MetaData<T>(codec);
    for i := 0 to |changes|
      invariant fresh(m) && fresh(m.bools1) && fresh(m.bools2) && m.Valid() && m.codec == codec
      invariant m.State() == Run(codec, changes[..i])
    {
      assert changes[..i + 1][..i] == changes[..i];
      m.Perform(changes[i]);
    }
    assert changes[..|changes|] == changes;
  }

  /**
   The whole way of a property list: default object, any setter calls, a copied frame, and the
   object read from it. The two are the same, and exactly the property list is consumed, if and
   only if every string written fits its length octet.
   */
  method Transferred<T(!new)>(host: Host, codec: TableCodec<T>, changes: seq<Change<T>>, needsSeparator: bool)
    returns (m: MetaData<T>, r: Option<MetaData<T>>, consumed: nat)
    requires Lawful(codec) && forall change :: change in changes ==> Legal(change)
    requires |Encode(codec, Run(codec, changes))| + (if needsSeparator then 1 else 0) < TWO_TO_THE_32
    ensures m.State() == Run(codec, changes)
    ensures r.Some? && r.value.State() == m.State() && consumed == |Encode(codec, m.State())|
       <==> StringsFit(m.State())
  {
    hide Run, Encode, Decode, Lawful, Legal, MetaData.State, AbsentAreDefault, StringsFit;
    ReachableRoundTrip(codec, changes, if needsSeparator then [END_OF_FRAME] else []);
    m := Configured(codec, changes);
    var buffer := CopyFrame(host, m, needsSeparator);
    var frame := new ReceivedFrame(buffer.buffer[..buffer.size]);
    r := MetaData<T>.Read(codec, frame);
    consumed := frame.pos;
  }
}
