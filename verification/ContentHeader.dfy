/**
 The content-header property list as a pure format: fourteen optional properties
 behind two flag octets, section 4.2.6.1 of AMQP 0-9-1. Properties are numbered in
 the order in which they travel, and property k is announced by the k-th of the
 sixteen flags, the most significant bit of the first octet being flag 0. The last
 two flags announce nothing.
 */
module ContentHeader {
  import opened Basics
  import opened Wire
  import opened BooleanSets
  import opened SlotFormat

  const SLOTS := 14
  const FLAGS := 16
  const MAX_SHORT_STRING := 255

  // Property numbers
  const CONTENT_TYPE := 0
  const CONTENT_ENCODING := 1
  const HEADERS := 2
  const DELIVERY_MODE := 3
  const PRIORITY := 4
  const CORRELATION_ID := 5
  const REPLY_TO := 6
  const EXPIRATION := 7
  const MESSAGE_ID := 8
  const TIME := 9
  const TYPE_NAME := 10
  const USER_ID := 11
  const APP_ID := 12
  const CLUSTER_ID := 13

  datatype Kind = TextKind | OctetKind | StampKind | FieldsKind

  type uint64 = x: nat | x < 0x1_0000_0000_0000_0000

  datatype Value<T> = Text(text: bytes) | Octet(octet: byte) | Stamp(stamp: uint64) | Fields(table: T)

  /** The field table is a format of its own; only its size and its read-back law matter here. */
  datatype TableCodec<!T> = TableCodec(
    encode: T -> bytes,
    size: T -> nat,
    decode: bytes -> Option<(T, nat)>,
    empty: T)

  ghost predicate Lawful<T(!new)>(c: TableCodec<T>) {
    && (forall t :: c.size(t) == |c.encode(t)|)
    && (forall t, rest :: c.decode(c.encode(t) + rest) == Some((t, |c.encode(t)|)))
  }

  datatype Header<T> = Header(flags: seq<bool>, values: seq<Value<T>>)

  function KindOf(k: nat): Kind {
    if k == HEADERS then FieldsKind
    else if k == DELIVERY_MODE || k == PRIORITY then OctetKind
    else if k == TIME then StampKind
    else TextKind
  }

  predicate HasKind<T>(v: Value<T>, kind: Kind) {
    match kind
    case TextKind => v.Text?
    case OctetKind => v.Octet?
    case StampKind => v.Stamp?
    case FieldsKind => v.Fields?
  }

  function DefaultValue<T>(c: TableCodec<T>, k: nat): (v: Value<T>)
    ensures HasKind(v, KindOf(k))
  {
    match KindOf(k)
    case TextKind => Text([])
    case OctetKind => Octet(0)
    case StampKind => Stamp(0)
    case FieldsKind => Fields(c.empty)
  }

  predicate Announced(flags: seq<bool>, k: nat) {
    k < |flags| && flags[k]
  }

  predicate Present<T>(h: Header<T>, k: nat) {
    Announced(h.flags, k)
  }

  predicate WellTyped<T>(h: Header<T>) {
    && |h.flags| == FLAGS
    && |h.values| == SLOTS
    && forall k :: 0 <= k < SLOTS ==> HasKind(h.values[k], KindOf(k))
  }

  /** An absent property holds its default. */
  ghost predicate AbsentAreDefault<T>(c: TableCodec<T>, h: Header<T>)
    requires WellTyped(h)
  {
    forall k :: 0 <= k < SLOTS && !Present(h, k) ==> h.values[k] == DefaultValue(c, k)
  }

  predicate Fits<T>(v: Value<T>) {
    v.Text? ==> |v.text| <= MAX_SHORT_STRING
  }

  /** Every string that will be written fits its length octet. */
  predicate StringsFit<T>(h: Header<T>)
    requires WellTyped(h)
  {
    forall k :: 0 <= k < SLOTS && Present(h, k) ==> Fits(h.values[k])
  }

  // One value

  /** A short string truncates its length octet, never its data. */
  function EncodeText(text: bytes): bytes {
    EncodeInt(UOCTET, |text| % 256) + text
  }

  function EncodeValue<T>(c: TableCodec<T>, v: Value<T>): bytes {
    match v
    case Text(text) => EncodeText(text)
    case Octet(octet) => EncodeInt(UOCTET, octet)
    case Stamp(stamp) => EncodeInt(TIMESTAMP, stamp)
    case Fields(table) => c.encode(table)
  }

  function DecodeOctet(bs: bytes): byte
    requires |bs| >= 1
  {
    OctetIsByte(bs[0]);
    assert bs[..1] == [bs[0]];
    EncodeInvertsDecodeInt(UOCTET, bs[..1]);
    DecodeInt(UOCTET, bs[..1])
  }

  function DecodeText(bs: bytes): Option<(bytes, nat)> {
    if |bs| < 1 then None
    else
      var n := DecodeOctet(bs);
      if |bs| < 1 + n then None else Some((bs[1..1 + n], 1 + n))
  }

  function DecodeStamp(bs: bytes): uint64
    requires |bs| >= 8
  {
    EncodeInvertsDecodeInt(TIMESTAMP, bs[..8]);
    DecodeInt(TIMESTAMP, bs[..8])
  }

  function DecodeValue<T>(c: TableCodec<T>, kind: Kind, bs: bytes): Option<(Value<T>, nat)> {
    match kind
    case TextKind =>
      var (text, n) :- DecodeText(bs);
      Some((Text(text), n))
    case OctetKind => if |bs| < 1 then None else Some((Octet(DecodeOctet(bs)), 1))
    case StampKind => if |bs| < 8 then None else Some((Stamp(DecodeStamp(bs)), 8))
    case FieldsKind =>
      var (table, n) :- c.decode(bs);
      if n > |bs| then None else Some((Fields(table), n))
  }

  lemma OctetIsByte(b: byte)
    ensures EncodeInt(UOCTET, b) == [b]
    ensures DecodeInt(UOCTET, [b]) == b
  {
    assert BigEndianValue([b][..0]) == 0;
  }

  lemma DecodeOctetIsByte(bs: bytes)
    requires |bs| >= 1
    ensures DecodeOctet(bs) == bs[0]
  {
    OctetIsByte(bs[0]);
    assert bs[..1] == [bs[0]];
  }

  lemma DecodeValueInvertsEncodeValue<T(!new)>(c: TableCodec<T>, v: Value<T>, kind: Kind, rest: bytes)
    requires Lawful(c) && HasKind(v, kind) && Fits(v)
    ensures DecodeValue(c, kind, EncodeValue(c, v) + rest) == Some((v, |EncodeValue(c, v)|))
  {
    var bs := EncodeValue(c, v) + rest;
    match v
    case Text(text) =>
      OctetIsByte(|text|);
      DecodeOctetIsByte(bs);
      assert bs[1..1 + |text|] == text;
    case Octet(octet) =>
      OctetIsByte(octet);
      DecodeOctetIsByte(bs);
    case Stamp(stamp) =>
      DecodeInvertsEncodeInt(TIMESTAMP, stamp);
      assert bs[..8] == EncodeInt(TIMESTAMP, stamp);
    case Fields(table) =>
  }

  lemma EncodeValueInvertsDecodeValue<T>(c: TableCodec<T>, kind: Kind, bs: bytes)
    requires DecodeValue(c, kind, bs).Some?
    ensures var (v, n) := DecodeValue(c, kind, bs).value;
            && HasKind(v, kind) && Fits(v) && n <= |bs|
            && (kind != FieldsKind ==> EncodeValue(c, v) == bs[..n])
  {
    match kind
    case TextKind =>
      DecodeOctetIsByte(bs);
      OctetIsByte(bs[0]);
      assert bs[..1 + bs[0]] == [bs[0]] + bs[1..1 + bs[0]];
    case OctetKind =>
      DecodeOctetIsByte(bs);
      OctetIsByte(bs[0]);
    case StampKind =>
      EncodeInvertsDecodeInt(TIMESTAMP, bs[..8]);
    case FieldsKind =>
  }

  // The property list

  function WriteSlot<T>(c: TableCodec<T>, flags: seq<bool>, k: nat, v: Value<T>): bytes {
    if Announced(flags, k) then EncodeValue(c, v) else []
  }

  /** Property k at the head of bs: read if it is announced, its default otherwise. */
  function ReadSlot<T>(c: TableCodec<T>, flags: seq<bool>, k: nat, bs: bytes): Option<(Value<T>, nat)> {
    if Announced(flags, k) then DecodeValue(c, KindOf(k), bs) else Some((DefaultValue(c, k), 0))
  }

  function SlotWriter<T>(c: TableCodec<T>, flags: seq<bool>): Writer<Value<T>> {
    (k, v) => WriteSlot(c, flags, k, v)
  }

  function SlotReader<T>(c: TableCodec<T>, flags: seq<bool>): Reader<Value<T>> {
    (k, bs) => ReadSlot(c, flags, k, bs)
  }

  function FlagBytes(flags: seq<bool>): (bs: bytes)
    requires |flags| == FLAGS
    ensures |bs| == 2
  {
    EncodeInt(UOCTET, OctetOf(flags[..8])) + EncodeInt(UOCTET, OctetOf(flags[8..]))
  }

  function Encode<T>(c: TableCodec<T>, h: Header<T>): bytes
    requires |h.flags| == FLAGS
  {
    FlagBytes(h.flags) + Write(SlotWriter(c, h.flags), h.values)
  }

  function IfSet(flag: bool, field: bytes): bytes {
    if flag then field else []
  }

  /** The octets of one field: a string behind its length modulo 256. */
  function FieldOctets<T>(c: TableCodec<T>, v: Value<T>): bytes {
    match v
    case Text(text) => [|text| % 256] + text
    case Octet(octet) => [octet]
    case Stamp(stamp) => EncodeInt(TIMESTAMP, stamp)
    case Fields(table) => c.encode(table)
  }

  /** Two flag octets, then the fields one behind the other, each with its flag. */
  lemma Layout<T>(c: TableCodec<T>, h: Header<T>)
    requires WellTyped(h)
    ensures var f, v := h.flags, h.values;
            Encode(c, h) == [OctetOf(f[..8]), OctetOf(f[8..])] + (
              IfSet(f[0], FieldOctets(c, v[0])) + IfSet(f[1], FieldOctets(c, v[1]))
              + IfSet(f[2], FieldOctets(c, v[2])) + IfSet(f[3], FieldOctets(c, v[3]))
              + IfSet(f[4], FieldOctets(c, v[4])) + IfSet(f[5], FieldOctets(c, v[5]))
              + IfSet(f[6], FieldOctets(c, v[6])) + IfSet(f[7], FieldOctets(c, v[7]))
              + IfSet(f[8], FieldOctets(c, v[8])) + IfSet(f[9], FieldOctets(c, v[9]))
              + IfSet(f[10], FieldOctets(c, v[10])) + IfSet(f[11], FieldOctets(c, v[11]))
              + IfSet(f[12], FieldOctets(c, v[12])) + IfSet(f[13], FieldOctets(c, v[13])))
  {
    FlagBytesAreTheOctets(h.flags);
    WriteOfFourteen(SlotWriter(c, h.flags), h.values);
    forall k: nat | k < SLOTS
      ensures SlotWriter(c, h.flags)(k, h.values[k]) == IfSet(h.flags[k], FieldOctets(c, h.values[k]))
    {
      FieldOctetsAreWritten(c, h.values[k]);
    }
    hide FieldOctets, EncodeValue, IfSet, Write, FlagBytes, OctetOf, SlotWriter, WriteSlot;
  }

  lemma FieldOctetsAreWritten<T>(c: TableCodec<T>, v: Value<T>)
    ensures EncodeValue(c, v) == FieldOctets(c, v)
  {
    match v
    case Text(text) => OctetIsByte(|text| % 256);
    case Octet(octet) => OctetIsByte(octet);
    case Stamp(_) =>
    case Fields(_) =>
  }

  function Decode<T>(c: TableCodec<T>, bs: bytes): (r: Option<(Header<T>, nat)>)
    ensures r.Some? ==> |r.value.0.flags| == FLAGS && |r.value.0.values| == SLOTS && r.value.1 <= |bs|
  {
    if |bs| < 2 then None
    else
      var flags := Booleans(bs[0]) + Booleans(bs[1]);
      var (values, n) :- Read(SlotReader(c, flags), SLOTS, bs[2..]);
      Some((Header(flags, values), 2 + n))
  }

  lemma FlagBytesAreTheOctets(flags: seq<bool>)
    requires |flags| == FLAGS
    ensures FlagBytes(flags) == [OctetOf(flags[..8]), OctetOf(flags[8..])]
    ensures Booleans(FlagBytes(flags)[0]) + Booleans(FlagBytes(flags)[1]) == flags
  {
    OctetIsByte(OctetOf(flags[..8]));
    OctetIsByte(OctetOf(flags[8..]));
    OctetRoundTrips(0, flags[..8]);
    OctetRoundTrips(0, flags[8..]);
  }

  lemma SlotsReadBack<T(!new)>(c: TableCodec<T>, h: Header<T>, rest: bytes)
    requires Lawful(c) && WellTyped(h) && AbsentAreDefault(c, h) && StringsFit(h)
    ensures var written := Write(SlotWriter(c, h.flags), h.values);
            Read(SlotReader(c, h.flags), SLOTS, written + rest) == Some((h.values, |written|))
  {
    var read, write := SlotReader(c, h.flags), SlotWriter(c, h.flags);
    forall i: nat, after: bytes | i < SLOTS
      ensures read(i, write(i, h.values[i]) + after) == Some((h.values[i], |write(i, h.values[i])|))
    {
      if Announced(h.flags, i) {
        DecodeValueInvertsEncodeValue(c, h.values[i], KindOf(i), after);
      }
    }
    ReadInvertsWrite(read, write, h.values, rest);
  }

  lemma DecodeBehindFlags<T>(c: TableCodec<T>, flags: seq<bool>, body: bytes)
    requires |flags| == FLAGS
    ensures Decode(c, FlagBytes(flags) + body) == match Read(SlotReader(c, flags), SLOTS, body)
                                                  case None => None
                                                  case Some((values, n)) => Some((Header(flags, values), 2 + n))
  {
    hide FlagBytes, Booleans, Read, SlotReader;
    FlagBytesAreTheOctets(flags);
    assert (FlagBytes(flags) + body)[2..] == body;
  }

  lemma ReadBackWhatWasWritten<T(!new)>(c: TableCodec<T>, h: Header<T>, rest: bytes)
    requires Lawful(c) && WellTyped(h) && AbsentAreDefault(c, h) && StringsFit(h)
    ensures Decode(c, Encode(c, h) + rest) == Some((h, |Encode(c, h)|))
  {
    var head, body := FlagBytes(h.flags), Write(SlotWriter(c, h.flags), h.values);
    SlotsReadBack(c, h, rest);
    DecodeBehindFlags(c, h.flags, body + rest);
    Seams(head, body, rest);
  }

  /** What a reader can produce: typed values, defaults for what was absent, strings that fit. */
  lemma DecodeImage<T>(c: TableCodec<T>, bs: bytes)
    requires Decode(c, bs).Some?
    ensures var h := Decode(c, bs).value.0;
            WellTyped(h) && AbsentAreDefault(c, h) && StringsFit(h)
  {
    var flags := Booleans(bs[0]) + Booleans(bs[1]);
    var read := SlotReader(c, flags);
    var good := (i: nat, v: Value<T>) =>
      HasKind(v, KindOf(i)) && Fits(v) && (!Announced(flags, i) && i < SLOTS ==> v == DefaultValue(c, i));
    forall i: nat, from: bytes | i < SLOTS && read(i, from).Some?
      ensures good(i, read(i, from).value.0)
    {
      if Announced(flags, i) {
        EncodeValueInvertsDecodeValue(c, KindOf(i), from);
      }
    }
    ReadImage(read, good, SLOTS, bs[2..]);
    var h := Decode(c, bs).value.0;
    assert forall i :: 0 <= i < SLOTS ==> good(i, h.values[i]);
  }

  /** A property list read without a header table is written back octet for octet, flag octets included. */
  lemma WriteBackWhatWasRead<T>(c: TableCodec<T>, bs: bytes)
    requires Decode(c, bs).Some? && !Present(Decode(c, bs).value.0, HEADERS)
    ensures var (h, n) := Decode(c, bs).value;
            Encode(c, h) == bs[..n]
  {
    var (h, n) := Decode(c, bs).value;
    var read, write := SlotReader(c, h.flags), SlotWriter(c, h.flags);
    forall i: nat, from: bytes | i < SLOTS && read(i, from).Some? && read(i, from).value.1 <= |from|
      ensures write(i, read(i, from).value.0) == from[..read(i, from).value.1]
    {
      if Announced(h.flags, i) {
        EncodeValueInvertsDecodeValue(c, KindOf(i), from);
      }
    }
    WriteInvertsRead(read, write, SLOTS, bs[2..]);
    FlagBytesAreTheOctets(h.flags);
    assert h.flags[..8] == Booleans(bs[0]) && h.flags[8..] == Booleans(bs[1]);
    OctetRoundTrips(bs[0], h.flags[..8]);
    OctetRoundTrips(bs[1], h.flags[8..]);
    assert bs[..n] == bs[..2] + bs[2..][..n - 2];
  }

  /** The exact domain of the round trip, over all typed headers and whatever follows on the wire. */
  lemma RoundTripIff<T(!new)>(c: TableCodec<T>, h: Header<T>, rest: bytes)
    requires Lawful(c) && WellTyped(h)
    ensures Decode(c, Encode(c, h) + rest) == Some((h, |Encode(c, h)|))
       <==> AbsentAreDefault(c, h) && StringsFit(h)
  {
    if AbsentAreDefault(c, h) && StringsFit(h) {
      ReadBackWhatWasWritten(c, h, rest);
    }
    if Decode(c, Encode(c, h) + rest) == Some((h, |Encode(c, h)|)) {
      DecodeImage(c, Encode(c, h) + rest);
    }
  }

  // Size

  function ValueSize<T>(c: TableCodec<T>, v: Value<T>): nat {
    match v
    case Text(text) => 1 + |text|
    case Octet(_) => 1
    case Stamp(_) => 8
    case Fields(table) => c.size(table)
  }

  function SlotSize<T>(c: TableCodec<T>, h: Header<T>, k: nat): nat
    requires |h.values| == SLOTS && k < SLOTS
  {
    if Present(h, k) then ValueSize(c, h.values[k]) else 0
  }

  function SlotSizes<T>(c: TableCodec<T>, h: Header<T>): (sizes: seq<nat>)
    requires |h.values| == SLOTS
    ensures |sizes| == SLOTS
  {
    seq(SLOTS, k requires 0 <= k < SLOTS => SlotSize(c, h, k))
  }

  /** The sizes of the first k slots. */
  function Sum(sizes: seq<nat>, k: nat): nat
    requires k <= |sizes|
  {
    if k == 0 then 0 else Sum(sizes, k - 1) + sizes[k - 1]
  }

  lemma {:induction false} WrittenLength<T(!new)>(c: TableCodec<T>, h: Header<T>, k: nat)
    requires Lawful(c) && |h.values| == SLOTS && k <= SLOTS
    ensures |Write(SlotWriter(c, h.flags), h.values[..k])| == Sum(SlotSizes(c, h), k)
  {
    if k > 0 {
      WrittenLength(c, h, k - 1);
      WriteOneMore(SlotWriter(c, h.flags), h.values, k - 1);
    }
  }

  /** Each property takes the octets its size function says, over-long strings included. */
  lemma EncodedLength<T(!new)>(c: TableCodec<T>, h: Header<T>)
    requires Lawful(c) && |h.flags| == FLAGS && |h.values| == SLOTS
    ensures |Encode(c, h)| == 2 + Sum(SlotSizes(c, h), SLOTS)
  {
    WrittenLength(c, h, SLOTS);
    assert h.values[..SLOTS] == h.values;
  }

  // Setters

  /** One call of a setter. SetField covers the fourteen named setters. */
  datatype Change<T> = SetField(slot: nat, value: Value<T>) | SetPersistent(on: bool)

  predicate Legal<T>(change: Change<T>) {
    change.SetField? ==> change.slot < SLOTS && HasKind(change.value, KindOf(change.slot))
  }

  function WithSlot<T>(h: Header<T>, k: nat, on: bool, v: Value<T>): Header<T>
    requires |h.flags| == FLAGS && |h.values| == SLOTS && k < SLOTS
  {
    Header(h.flags[k := on], h.values[k := v])
  }

  function Apply<T>(h: Header<T>, change: Change<T>): (h': Header<T>)
    requires WellTyped(h) && Legal(change)
    ensures WellTyped(h')
  {
    match change
    case SetField(k, v) => WithSlot(h, k, true, v)
    case SetPersistent(on) => WithSlot(h, DELIVERY_MODE, on, Octet(if on then 2 else 0))
  }

  function DefaultHeader<T>(c: TableCodec<T>): Header<T> {
    Header(seq(FLAGS, _ => false), seq(SLOTS, k requires 0 <= k < SLOTS => DefaultValue(c, k)))
  }

  /** A default object has no property; its strings are empty and its numbers 0. */
  lemma Defaults<T>(c: TableCodec<T>)
    ensures DefaultHeader(c).flags == [false, false, false, false, false, false, false, false,
                                       false, false, false, false, false, false, false, false]
    ensures DefaultHeader(c).values == [Text([]), Text([]), Fields(c.empty), Octet(0), Octet(0), Text([]), Text([]),
                                        Text([]), Text([]), Stamp(0), Text([]), Text([]), Text([]), Text([])]
  {
  }

  function Run<T>(c: TableCodec<T>, changes: seq<Change<T>>): (h: Header<T>)
    requires forall change :: change in changes ==> Legal(change)
    ensures WellTyped(h)
  {
    if changes == [] then DefaultHeader(c)
    else Apply(Run(c, changes[..|changes| - 1]), changes[|changes| - 1])
  }

  /** The value the history leaves in property k, None if it leaves the property absent. */
  function LastSet<T>(changes: seq<Change<T>>, k: nat): Option<Value<T>> {
    if changes == [] then None
    else
      match changes[|changes| - 1]
      case SetField(slot, v) => if slot == k then Some(v) else LastSet(changes[..|changes| - 1], k)
      case SetPersistent(on) =>
        if k != DELIVERY_MODE then LastSet(changes[..|changes| - 1], k)
        else if on then Some(Octet(2))
        else None
  }

  /** Flags and values after any sequence of setter calls are those of the last call for each property. */
  lemma {:induction false} SettersRecordTheLastCall<T>(c: TableCodec<T>, changes: seq<Change<T>>, k: nat)
    requires forall change :: change in changes ==> Legal(change)
    requires k < SLOTS
    ensures Present(Run(c, changes), k) == LastSet(changes, k).Some?
    ensures Run(c, changes).values[k] == (match LastSet(changes, k)
                                          case Some(v) => v
                                          case None => DefaultValue(c, k))
  {
    if changes != [] {
      assert Legal(changes[|changes| - 1]);
      SettersRecordTheLastCall(c, changes[..|changes| - 1], k);
    }
  }

  /** Whatever setters ran, the object is read back identically exactly when its written strings fit. */
  lemma ReachableRoundTrip<T(!new)>(c: TableCodec<T>, changes: seq<Change<T>>, rest: bytes)
    requires Lawful(c)
    requires forall change :: change in changes ==> Legal(change)
    ensures var h := Run(c, changes);
            && AbsentAreDefault(c, h)
            && (Decode(c, Encode(c, h) + rest) == Some((h, |Encode(c, h)|)) <==> StringsFit(h))
  {
    var h := Run(c, changes);
    forall k | 0 <= k < SLOTS && !Present(h, k)
      ensures h.values[k] == DefaultValue(c, k)
    {
      SettersRecordTheLastCall(c, changes, k);
    }
    RoundTripIff(c, h, rest);
  }
}
