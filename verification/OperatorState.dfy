/**
 The five generated operator-state messages as values: what parsing a record
 does to a message, what mergeFrom does, and what writeTo and getSerializedSize
 produce.  One Schema per message type; the types differ only in which of the
 fields 3 to 6 they declare and in the default of field 5.
 */
module OperatorState {
  import opened Basics
  import opened Wire

  datatype Schema = Schema(hasCounts: bool, hasId: bool, defaultType: int32)

  const VT_STATE := Schema(false, false, 0)
  const SOURCE := Schema(true, true, 1)
  const MAP := Schema(true, false, 2)
  const REDUCE := Schema(true, false, 3)
  const SINK := Schema(true, false, 4)

  const SCALAR_TAG: nat := 8     // field 1, varint
  const VT_TAG: nat := 16        // field 2, varint
  const VT_PACKED_TAG: nat := 18 // field 2, length-delimited
  const INPUT_TAG: nat := 26     // field 3, length-delimited
  const OUTPUT_TAG: nat := 34    // field 4, length-delimited
  const TYPE_TAG: nat := 40      // field 5, varint
  const ID_TAG: nat := 48        // field 6, varint
  const KEY_TAG: nat := 8        // map entry field 1
  const VALUE_TAG: nat := 16     // map entry field 2

  type Counts = map<int32, int32>
  type UnknownFields = map<nat, seq<Payload>>

  /**
   A message.  `scalar` is field 1 (offset, ID or wordCount); an optional field
   whose has-bit is off is None.  Dafny equality is the messages' equals.
   */
  datatype Message = Message(
    scalar: Option<int32>,
    vt: seq<int32>,
    inputs: Counts,
    outputs: Counts,
    opType: Option<int32>,
    id: Option<int32>,
    unknown: UnknownFields)
  {
    function GetScalar(): int32 { if scalar.Some? then scalar.value else 0 }
    function GetOperatorType(s: Schema): int32 { if opType.Some? then opType.value else s.defaultType }
    function GetId(): int32 { if id.Some? then id.value else 0 }
  }

  const DEFAULT := Message(None, [], map[], map[], None, None, map[])

  predicate Known(s: Schema, tag: nat) {
    || tag in {SCALAR_TAG, VT_TAG, VT_PACKED_TAG}
    || (s.hasCounts && tag in {INPUT_TAG, OUTPUT_TAG, TYPE_TAG})
    || (s.hasId && tag == ID_TAG)
  }

  /** What the generated code can hold: only declared fields, and unknown fields that are unknown. */
  ghost predicate Canonical(s: Schema, m: Message) {
    && Declared(s, m)
    && forall tag <- m.unknown ::
         && !Known(s, tag)
         && m.unknown[tag] != []
         && forall p <- m.unknown[tag] :: IsTagOf(tag, p)
  }

  /** Fields the message type does not declare are absent. */
  predicate Declared(s: Schema, m: Message) {
    && (!s.hasCounts ==> m.inputs == map[] && m.outputs == map[] && m.opType == None)
    && (!s.hasId ==> m.id == None)
  }

  // ---------- Parsing ----------

  /** The elements of a packed block. */
  function ReadInts(bs: bytes): Option<seq<int32>> {
    if bs == [] then Some([])
    else
      match ReadInt32(bs)
      case Malformed => None
      case Got(i, n) =>
        match ReadInts(bs[n..])
        case None => None
        case Some(rest) => Some([i] + rest)
  }

  /** A map entry: last key and last value win, both default to 0, anything else is skipped. */
  function ReadEntry(bs: bytes, key: int32 := 0, value: int32 := 0): Option<(int32, int32)> {
    if bs == [] then Some((key, value))
    else
      match ReadRecord(bs)
      case Malformed => None
      case Got(r, n) =>
        if r.tag == KEY_TAG then ReadEntry(bs[n..], ToInt32(r.payload.v), value)
        else if r.tag == VALUE_TAG then ReadEntry(bs[n..], key, ToInt32(r.payload.v))
        else ReadEntry(bs[n..], key, value)
  }

  function PutEntry(counts: Counts, bs: bytes): Option<Counts> {
    match ReadEntry(bs)
    case None => None
    case Some((k, v)) => Some(counts[k := v])
  }

  function Lookup(u: UnknownFields, tag: nat): seq<Payload> {
    if tag in u then u[tag] else []
  }

  /** One turn of the parsing loop. */
  function Apply(s: Schema, m: Message, r: Record): Option<Message>
    requires r.WellFormed()
  {
    if r.tag == SCALAR_TAG then Some(m.(scalar := Some(ToInt32(r.payload.v))))
    else if r.tag == VT_TAG then Some(m.(vt := m.vt + [ToInt32(r.payload.v)]))
    else if r.tag == VT_PACKED_TAG then
      match ReadInts(r.payload.b)
      case None => None
      case Some(xs) => Some(m.(vt := m.vt + xs))
    else if s.hasCounts && r.tag == INPUT_TAG then
      match PutEntry(m.inputs, r.payload.b)
      case None => None
      case Some(c) => Some(m.(inputs := c))
    else if s.hasCounts && r.tag == OUTPUT_TAG then
      match PutEntry(m.outputs, r.payload.b)
      case None => None
      case Some(c) => Some(m.(outputs := c))
    else if s.hasCounts && r.tag == TYPE_TAG then Some(m.(opType := Some(ToInt32(r.payload.v))))
    else if s.hasId && r.tag == ID_TAG then Some(m.(id := Some(ToInt32(r.payload.v))))
    else Some(m.(unknown := m.unknown[r.tag := Lookup(m.unknown, r.tag) + [r.payload]]))
  }

  function ParseFrom(s: Schema, m: Message, bs: bytes): Option<Message>
    decreases |bs|
  {
    if bs == [] then Some(m)
    else
      match ReadRecord(bs)
      case Malformed => None
      case Got(r, n) =>
        match Apply(s, m, r)
        case None => None
        case Some(m') => ParseFrom(s, m', bs[n..])
  }

  /** parseFrom(byte[]): the whole input has to be consumed. */
  function Parse(s: Schema, bs: bytes): Option<Message> {
    ParseFrom(s, DEFAULT, bs)
  }

  // ---------- Merging ----------

  function Override<T>(x: Option<T>, y: Option<T>): Option<T> {
    if y.Some? then y else x
  }

  function MergeUnknown(x: UnknownFields, y: UnknownFields): UnknownFields {
    map tag | tag in x.Keys + y.Keys :: Lookup(x, tag) + Lookup(y, tag)
  }

  /** The message a builder holding x builds after mergeFrom(y). */
  function Merge(x: Message, y: Message): Message {
    Message(
      Override(x.scalar, y.scalar),
      x.vt + y.vt,
      x.inputs + y.inputs,
      x.outputs + y.outputs,
      Override(x.opType, y.opType),
      Override(x.id, y.id),
      MergeUnknown(x.unknown, y.unknown))
  }

  // ---------- Writing ----------

  /** `order` visits every element of `keys` exactly once. */
  ghost predicate Enumerates<K(!new)>(order: seq<K>, keys: set<K>) {
    && |order| == |keys|
    && (forall i, j :: 0 <= i < j < |order| ==> order[i] != order[j])
    && (forall k :: k in order <==> k in keys)
  }

  function WriteTagged(tag: nat, i: int32): bytes {
    WriteVarint(tag) + WriteInt32(i)
  }

  function WriteScalar(tag: nat, o: Option<int32>): bytes {
    if o.None? then [] else WriteTagged(tag, o.value)
  }

  function WriteInts(xs: seq<int32>): bytes {
    if xs == [] then [] else WriteTagged(VT_TAG, xs[0]) + WriteInts(xs[1..])
  }

  function EntryBody(k: int32, v: int32): bytes {
    WriteTagged(KEY_TAG, k) + WriteTagged(VALUE_TAG, v)
  }

  function WriteEntry(tag: nat, k: int32, v: int32): bytes {
    WriteVarint(tag) + WriteVarint(|EntryBody(k, v)|) + EntryBody(k, v)
  }

  function WriteCounts(tag: nat, c: Counts, order: seq<int32>): bytes
    requires forall k <- order :: k in c
  {
    if order == [] then []
    else WriteEntry(tag, order[0], c[order[0]]) + WriteCounts(tag, c, order[1..])
  }

  function WritePayloads(tag: nat, ps: seq<Payload>): bytes {
    if ps == [] then [] else WriteRecord(tag, ps[0]) + WritePayloads(tag, ps[1..])
  }

  function WriteUnknown(u: UnknownFields, order: seq<nat>): bytes
    requires forall tag <- order :: tag in u
  {
    if order == [] then []
    else WritePayloads(order[0], u[order[0]]) + WriteUnknown(u, order[1..])
  }

  /** The iteration orders of the two hash maps and of the unknown fields. */
  datatype Order = Order(inputs: seq<int32>, outputs: seq<int32>, unknown: seq<nat>) {
    ghost predicate For(m: Message) {
      && Enumerates(inputs, m.inputs.Keys)
      && Enumerates(outputs, m.outputs.Keys)
      && Enumerates(unknown, m.unknown.Keys)
    }
  }

  /** writeTo.  Undeclared fields are absent, so one body serves every schema. */
  function Write(m: Message, o: Order): bytes
    requires forall k <- o.inputs :: k in m.inputs
    requires forall k <- o.outputs :: k in m.outputs
    requires forall tag <- o.unknown :: tag in m.unknown
  {
    WriteScalar(SCALAR_TAG, m.scalar)
    + WriteInts(m.vt)
    + WriteCounts(INPUT_TAG, m.inputs, o.inputs)
    + WriteCounts(OUTPUT_TAG, m.outputs, o.outputs)
    + WriteScalar(TYPE_TAG, m.opType)
    + WriteScalar(ID_TAG, m.id)
    + WriteUnknown(m.unknown, o.unknown)
  }

  // ---------- Sizes ----------

  /** computeUInt32SizeNoTag: one comparison per byte boundary. */
  function UInt32Size(v: nat): nat {
    if v < 0x80 then 1
    else if v < 0x4000 then 2
    else if v < 0x20_0000 then 3
    else if v < 0x1000_0000 then 4
    else 5
  }

  /** computeInt32SizeNoTag: a negative value always takes the full ten bytes. */
  function Int32Size(i: int32): nat {
    if i >= 0 then UInt32Size(i) else MAX_VARINT_BYTES
  }

  function TaggedSize(tag: nat, i: int32): nat {
    UInt32Size(tag) + Int32Size(i)
  }

  function ScalarSize(tag: nat, o: Option<int32>): nat {
    if o.None? then 0 else TaggedSize(tag, o.value)
  }

  function IntsDataSize(xs: seq<int32>): nat {
    if xs == [] then 0 else Int32Size(xs[0]) + IntsDataSize(xs[1..])
  }

  function EntrySize(tag: nat, k: int32, v: int32): nat {
    var body := TaggedSize(KEY_TAG, k) + TaggedSize(VALUE_TAG, v);
    UInt32Size(tag) + UInt32Size(body) + body
  }

  function CountsSize(tag: nat, c: Counts, order: seq<int32>): nat
    requires forall k <- order :: k in c
  {
    if order == [] then 0
    else EntrySize(tag, order[0], c[order[0]]) + CountsSize(tag, c, order[1..])
  }

  function UInt64Size(v: nat): nat {
    if v < 0x80 then 1 else 1 + UInt64Size(v / 0x80)
  }

  function PayloadSize(p: Payload): nat {
    match p
    case Varint(v) => UInt64Size(v)
    case Fixed64(_) => 8
    case Delimited(b) => UInt32Size(|b|) + |b|
    case Fixed32(_) => 4
  }

  function PayloadsSize(tag: nat, ps: seq<Payload>): nat {
    if ps == [] then 0 else UInt32Size(tag) + PayloadSize(ps[0]) + PayloadsSize(tag, ps[1..])
  }

  function UnknownSize(u: UnknownFields, order: seq<nat>): nat
    requires forall tag <- order :: tag in u
  {
    if order == [] then 0
    else PayloadsSize(order[0], u[order[0]]) + UnknownSize(u, order[1..])
  }

  /** getSerializedSize: the list contributes one tag byte per element on top of its data. */
  function Size(m: Message, o: Order): nat
    requires forall k <- o.inputs :: k in m.inputs
    requires forall k <- o.outputs :: k in m.outputs
    requires forall tag <- o.unknown :: tag in m.unknown
  {
    ScalarSize(SCALAR_TAG, m.scalar)
    + (IntsDataSize(m.vt) + 1 * |m.vt|)
    + CountsSize(INPUT_TAG, m.inputs, o.inputs)
    + CountsSize(OUTPUT_TAG, m.outputs, o.outputs)
    + ScalarSize(TYPE_TAG, m.opType)
    + ScalarSize(ID_TAG, m.id)
    + UnknownSize(m.unknown, o.unknown)
  }
}
