/**
 The part of the protocol buffer wire format that the generated operator-state
 messages call into: base-128 varints, tags and tag-delimited records.

 Readers look at the unread input and report how many bytes they used.
 Malformed stands for every InvalidProtocolBufferException of the runtime.
 */
module Wire {
  import opened Basics

  const MAX_VARINT_BYTES: nat := 10

  datatype Reading<+T> = Malformed | Got(value: T, size: nat)

  // ---------- Varints ----------

  function WriteVarint(v: nat): (bs: bytes)
    ensures bs != []
  {
    if v < 128 then [v] else [v % 128 + 128] + WriteVarint(v / 128)
  }

  /** At most `room` bytes; the value is not yet cut down to 64 or 32 bits. */
  function ReadVarint(bs: bytes, room: nat := MAX_VARINT_BYTES): (r: Reading<nat>)
    ensures r.Got? ==> 1 <= r.size <= |bs|
  {
    if room == 0 || bs == [] then Malformed
    else if bs[0] < 128 then Got(bs[0], 1)
    else
      match ReadVarint(bs[1..], room - 1)
      case Malformed => Malformed
      case Got(v, n) => Got(bs[0] - 128 + 128 * v, n + 1)
  }

  ghost function Pow128(n: nat): nat {
    if n == 0 then 1 else 128 * Pow128(n - 1)
  }

  lemma {:induction false} ReadWrittenVarint(v: nat, room: nat, rest: bytes)
    requires room > 0 && v < Pow128(room)
    ensures ReadVarint(WriteVarint(v) + rest, room) == Got(v, |WriteVarint(v)|)
    ensures |WriteVarint(v)| <= room
    decreases v
  {
    var w := WriteVarint(v);
    assert (w + rest)[0] == w[0];
    if v >= 128 {
      assert Pow128(1) == 128;
      assert (w + rest)[1..] == WriteVarint(v / 128) + rest;
      ReadWrittenVarint(v / 128, room - 1, rest);
    }
  }

  lemma Uint64FitsTenBytes()
    ensures TWO_64 <= Pow128(MAX_VARINT_BYTES)
    ensures TWO_32 <= Pow128(5)
  {
    assert Pow128(5) == 128 * (128 * (128 * (128 * 128)));
    assert Pow128(10) == 128 * (128 * (128 * (128 * (128 * Pow128(5)))));
  }

  /** Reading back a 64-bit value gives the value, whatever follows it. */
  lemma ReadWrittenUint64(v: uint64, rest: bytes)
    ensures ReadVarint(WriteVarint(v) + rest) == Got(v, |WriteVarint(v)|)
  {
    Uint64FitsTenBytes();
    ReadWrittenVarint(v, MAX_VARINT_BYTES, rest);
  }

  lemma {:induction false} VarintPrefix(a: bytes, b: bytes, room: nat)
    requires ReadVarint(a, room).Got?
    ensures ReadVarint(a + b, room) == ReadVarint(a, room)
    decreases room
  {
    assert (a + b)[0] == a[0];
    if a[0] >= 128 {
      assert (a + b)[1..] == a[1..] + b;
      VarintPrefix(a[1..], b, room - 1);
    }
  }

  // ---------- int32 fields ----------

  /** The low 32 bits, read as two's complement: what readInt32 keeps of a varint. */
  function ToInt32(v: nat): int32 {
    var low := v % TWO_32;
    if low < TWO_31 then low else low - TWO_32
  }

  /** An int32 goes on the wire sign-extended to 64 bits. */
  function SignExtend(i: int32): uint64 {
    if i >= 0 then i else i + TWO_64
  }

  lemma Int32RoundTrip(i: int32)
    ensures ToInt32(SignExtend(i)) == i
  {
    assert TWO_64 == TWO_32 * TWO_32;
    if i < 0 {
      assert SignExtend(i) == (i + TWO_32) + (TWO_32 - 1) * TWO_32;
      assert SignExtend(i) % TWO_32 == i + TWO_32;
    }
  }

  function WriteInt32(i: int32): (bs: bytes)
    ensures bs != []
  {
    WriteVarint(SignExtend(i))
  }

  function ReadInt32(bs: bytes): (r: Reading<int32>)
    ensures r.Got? ==> 1 <= r.size <= |bs|
  {
    match ReadVarint(bs)
    case Malformed => Malformed
    case Got(v, n) => Got(ToInt32(v), n)
  }

  lemma ReadWrittenInt32(i: int32, rest: bytes)
    ensures ReadInt32(WriteInt32(i) + rest) == Got(i, |WriteInt32(i)|)
  {
    ReadWrittenUint64(SignExtend(i), rest);
    Int32RoundTrip(i);
  }

  // ---------- Records ----------

  /** One field as it stands on the wire, before the message gives it a meaning. */
  datatype Payload =
    | Varint(v: uint64)
    | Fixed64(b: bytes)
    | Delimited(b: bytes)
    | Fixed32(b: bytes)
  {
    function WireType(): nat {
      match this
      case Varint(_) => 0
      case Fixed64(_) => 1
      case Delimited(_) => 2
      case Fixed32(_) => 5
    }

    predicate WellFormed() {
      match this
      case Varint(_) => true
      case Fixed64(b) => |b| == 8
      case Delimited(b) => |b| < TWO_31
      case Fixed32(b) => |b| == 4
    }
  }

  /** A tag is a non-zero field number followed by three bits of wire type. */
  predicate IsTagOf(tag: nat, p: Payload) {
    8 <= tag < TWO_32 && tag % 8 == p.WireType() && p.WellFormed()
  }

  datatype Record = Record(tag: nat, payload: Payload) {
    predicate WellFormed() { IsTagOf(tag, payload) }
  }

  function WritePayload(p: Payload): bytes {
    match p
    case Varint(v) => WriteVarint(v)
    case Fixed64(b) => b
    case Delimited(b) => WriteVarint(|b|) + b
    case Fixed32(b) => b
  }

  function WriteRecord(tag: nat, p: Payload): (bs: bytes)
    ensures bs != []
  {
    WriteVarint(tag) + WritePayload(p)
  }

  function ReadDelimited(bs: bytes): (r: Reading<bytes>)
    ensures r.Got? ==> 1 <= r.size <= |bs| && |r.value| < TWO_31
  {
    match ReadVarint(bs)
    case Malformed => Malformed
    case Got(len, n) =>
      // a negative length and one beyond the current limit are both refused
      if 0 <= ToInt32(len) <= |bs| - n
      then Got(bs[n..n + ToInt32(len)], n + ToInt32(len))
      else Malformed
  }

  /** Groups (wire types 3 and 4) are outside the model and read as Malformed. */
  function ReadPayload(wireType: nat, bs: bytes): (r: Reading<Payload>)
    ensures r.Got? ==> r.size <= |bs| && r.value.WellFormed() && r.value.WireType() == wireType
  {
    match wireType
    case 0 =>
      (match ReadVarint(bs)
       case Malformed => Malformed
       case Got(v, n) => Got(Varint(v % TWO_64), n))
    case 1 => if |bs| < 8 then Malformed else Got(Fixed64(bs[..8]), 8)
    case 2 =>
      (match ReadDelimited(bs)
       case Malformed => Malformed
       case Got(b, n) => Got(Delimited(b), n))
    case 5 => if |bs| < 4 then Malformed else Got(Fixed32(bs[..4]), 4)
    case _ => Malformed
  }

  function ReadRecord(bs: bytes): (r: Reading<Record>)
    ensures r.Got? ==> 1 <= r.size <= |bs| && r.value.WellFormed()
  {
    match ReadVarint(bs)
    case Malformed => Malformed
    case Got(v, n) =>
      var tag := v % TWO_32;
      if tag < 8 then Malformed  // field number 0
      else
        match ReadPayload(tag % 8, bs[n..])
        case Malformed => Malformed
        case Got(p, k) => Got(Record(tag, p), n + k)
  }

  lemma PayloadPrefix(wireType: nat, a: bytes, b: bytes)
    requires ReadPayload(wireType, a).Got?
    ensures ReadPayload(wireType, a + b) == ReadPayload(wireType, a)
  {
    match wireType
    case 0 =>
      VarintPrefix(a, b, MAX_VARINT_BYTES);
    case 1 =>
      assert (a + b)[..8] == a[..8];
    case 2 =>
      VarintPrefix(a, b, MAX_VARINT_BYTES);
      var r := ReadVarint(a);
      var end := r.size + ToInt32(r.value);
      assert (a + b)[r.size..end] == a[r.size..end];
    case 5 =>
      assert (a + b)[..4] == a[..4];
    case _ =>
  }

  /** A complete record reads the same whatever bytes follow it. */
  lemma RecordPrefix(a: bytes, b: bytes)
    requires ReadRecord(a).Got?
    ensures ReadRecord(a + b) == ReadRecord(a)
  {
    VarintPrefix(a, b, MAX_VARINT_BYTES);
    var r := ReadVarint(a);
    assert (a + b)[r.size..] == a[r.size..] + b;
    PayloadPrefix(r.value % TWO_32 % 8, a[r.size..], b);
  }

  lemma ReadWrittenDelimited(b: bytes, rest: bytes)
    requires |b| < TWO_31
    ensures ReadDelimited(WriteVarint(|b|) + b + rest) == Got(b, |WriteVarint(|b|)| + |b|)
  {
    var w := WriteVarint(|b|);
    assert w + b + rest == w + (b + rest);
    ReadWrittenUint64(|b|, b + rest);
    assert (w + b + rest)[|w|..|w| + |b|] == b;
  }

  lemma ReadWrittenPayload(p: Payload, rest: bytes)
    requires p.WellFormed()
    ensures ReadPayload(p.WireType(), WritePayload(p) + rest) == Got(p, |WritePayload(p)|)
  {
    match p
    case Varint(v) =>
      ReadWrittenUint64(v, rest);
    case Fixed64(b) =>
      assert (b + rest)[..8] == b;
    case Delimited(b) =>
      ReadWrittenDelimited(b, rest);
    case Fixed32(b) =>
      assert (b + rest)[..4] == b;
  }

  lemma ReadTagThenPayload(bs: bytes, n: nat, tag: nat, p: Payload, size: nat)
    requires IsTagOf(tag, p)
    requires ReadVarint(bs) == Got(tag, n)
    requires ReadPayload(p.WireType(), bs[n..]) == Got(p, size)
    ensures ReadRecord(bs) == Got(Record(tag, p), n + size)
  {
    assert tag % TWO_32 == tag;
  }

  lemma ReadWrittenRecord(tag: nat, p: Payload, rest: bytes)
    requires IsTagOf(tag, p)
    ensures ReadRecord(WriteRecord(tag, p) + rest) == Got(Record(tag, p), |WriteRecord(tag, p)|)
  {
    var tail := WritePayload(p) + rest;
    ReadWrittenUint64(tag, tail);
    ReadWrittenPayload(p, rest);
    var w := WriteVarint(tag);
    assert (w + tail)[|w|..] == tail;
    ReadTagThenPayload(w + tail, |w|, tag, p, |WritePayload(p)|);
    assert WriteRecord(tag, p) + rest == w + tail;
  }
}
