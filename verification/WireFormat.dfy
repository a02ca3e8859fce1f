/**
 The wire format byte by byte: literal tags, varints and lengths, what each field
 makes of the message when it is read, and the tags that writeTo emits.
 */
module WireFormat {
  import opened Basics
  import opened Wire
  import opened OperatorState
  import opened CodecProofs
  import opened CodecSizes
  import opened PackedLists

  lemma Assoc<X>(a: seq<X>, b: seq<X>, c: seq<X>)
    ensures a + b + c == a + (b + c)
  {
  }

  // ---------- Varints ----------

  /** Seven bits per byte, least significant first; the high bit says that more follow. */
  lemma VarintShape(v: nat)
    ensures v < 0x80 ==> WriteVarint(v) == [v]
    ensures v >= 0x80 ==> WriteVarint(v)[0] == v % 0x80 + 0x80 && WriteVarint(v)[1..] == WriteVarint(v / 0x80)
  {
  }

  lemma OneMoreByte(v: nat, q: nat, rest: bytes)
    requires q > 0 && v == 0x80 * q + 0x7f && WriteVarint(q) == rest
    ensures WriteVarint(v) == [0xff] + rest
  {
    VarintShape(v);
    assert v / 0x80 == q && v % 0x80 == 0x7f;
  }

  lemma Ones(k: nat, v: nat)
    requires v + 1 == 2 * Pow128(k)
    ensures WriteVarint(v) == seq(k, _ => 0xff) + [0x01]
  {
    if k > 0 {
      Pow128Positive(k - 1);
      var q := 2 * Pow128(k - 1) - 1;
      Ones(k - 1, q);
      OneMoreByte(v, q, seq(k - 1, _ => 0xff) + [0x01]);
      assert [0xff] + (seq(k - 1, _ => 0xff) + [0x01]) == seq(k, _ => 0xff) + [0x01];
    }
  }

  lemma VarintExample()
    ensures WriteVarint(300) == [0xac, 0x02]
  {
    VarintShape(300);
    VarintShape(2);
  }

  /** Minus one takes the full ten bytes. */
  lemma MinusOne()
    ensures WriteInt32(-1) == [0xff, 0xff, 0xff, 0xff, 0xff, 0xff, 0xff, 0xff, 0xff, 0x01]
  {
    assert TWO_64 == 2 * Pow128(9) by {
      Uint64FitsTenBytes();
      assert Pow128(9) == 128 * (128 * (128 * (128 * Pow128(5))));
      assert Pow128(5) == 128 * (128 * (128 * (128 * 128)));
    }
    Ones(9, TWO_64 - 1);
    assert WriteInt32(-1) == seq(9, _ => 0xff) + [0x01];
  }

  /** One more byte in front of a varint, as long as there is room. */
  lemma VarintRead(b: byte, bs: bytes, room: nat)
    requires room > 0
    ensures b < 0x80 ==> ReadVarint([b] + bs, room) == Got(b as nat, 1)
    ensures b >= 0x80 && ReadVarint(bs, room - 1).Got? ==>
              ReadVarint([b] + bs, room) ==
                Got(b - 0x80 + 0x80 * ReadVarint(bs, room - 1).value, 1 + ReadVarint(bs, room - 1).size)
    ensures b >= 0x80 && ReadVarint(bs, room - 1).Malformed? ==> ReadVarint([b] + bs, room).Malformed?
    ensures ReadVarint([], room).Malformed? && ReadVarint(bs, 0).Malformed?
  {
    assert ([b] + bs)[1..] == bs;
  }

  /** A varint ends with the first byte below 0x80, which has to be among the next ten. */
  lemma VarintEnds(bs: bytes)
    ensures ReadVarint(bs).Got? <==> exists i :: 0 <= i < 10 && i < |bs| && bs[i] < 0x80
  {
    VarintEndsWithin(bs, 10);
  }

  lemma {:induction false} VarintEndsWithin(bs: bytes, room: nat)
    ensures ReadVarint(bs, room).Got? <==> exists i :: 0 <= i < room && i < |bs| && bs[i] < 0x80
  {
    if room > 0 && bs != [] && bs[0] >= 0x80 {
      VarintEndsWithin(bs[1..], room - 1);
      if i :| 0 <= i < room && i < |bs| && bs[i] < 0x80 {
        assert bs[1..][i - 1] < 0x80;
      }
    }
  }

  /** readInt32 keeps the low 32 bits in two's complement, writeInt32 extends the sign to 64 bits. */
  lemma Int32Bits(v: nat, i: int32)
    ensures ToInt32(v) % 0x1_0000_0000 == v % 0x1_0000_0000
    ensures SignExtend(i) % 0x1_0000_0000_0000_0000 == i % 0x1_0000_0000_0000_0000
    ensures WriteInt32(i) == WriteVarint(SignExtend(i))
  {
  }

  // ---------- Records ----------

  /** What a tag and a payload have to be to go on the wire together. */
  lemma IsTagOfIff(tag: nat, p: Payload)
    ensures IsTagOf(tag, p) <==>
              && 8 <= tag < 0x1_0000_0000
              && tag % 8 == (if p.Varint? then 0 else if p.Fixed64? then 1 else if p.Delimited? then 2 else 5)
              && (p.Fixed64? ==> |p.b| == 8)
              && (p.Delimited? ==> |p.b| < 0x8000_0000)
              && (p.Fixed32? ==> |p.b| == 4)
  {
  }

  /** The wire types: 0 a varint, 1 eight bytes, 2 a length and as many bytes, 5 four bytes; no others. */
  lemma PayloadRead(t: nat, bs: bytes)
    ensures t == 0 ==>
              ReadPayload(t, bs) == if ReadVarint(bs).Got? then Got(Varint(ReadVarint(bs).value % TWO_64), ReadVarint(bs).size)
                                    else Malformed
    ensures t == 1 ==> ReadPayload(t, bs) == if |bs| >= 8 then Got(Fixed64(bs[..8]), 8) else Malformed
    ensures t == 2 ==>
              ReadPayload(t, bs) == if ReadDelimited(bs).Got? then Got(Delimited(ReadDelimited(bs).value), ReadDelimited(bs).size)
                                    else Malformed
    ensures t == 5 ==> ReadPayload(t, bs) == if |bs| >= 4 then Got(Fixed32(bs[..4]), 4) else Malformed
    ensures t !in {0, 1, 2, 5} ==> ReadPayload(t, bs) == Malformed
    ensures TWO_64 == 0x1_0000_0000_0000_0000
  {
  }

  /** The length is an int32; a negative one, or one beyond the input, is refused. */
  lemma DelimitedRead(bs: bytes, w: Reading<nat>, len: int32)
    requires w == ReadVarint(bs) && (w.Got? ==> len == ToInt32(w.value))
    ensures w.Got? && 0 <= len <= |bs| - w.size ==> ReadDelimited(bs) == Got(bs[w.size..w.size + len], w.size + len)
    ensures w.Malformed? || !(0 <= len <= |bs| - w.size) ==> ReadDelimited(bs).Malformed?
  {
    if w.Got? {
      var value: nat := w.value;
      assert ToInt32(value) == len;
    }
  }

  /** A tag is cut to 32 bits; its low three bits are the wire type, and the field number above them is not zero. */
  lemma RecordRead(bs: bytes)
    ensures var w := ReadVarint(bs);
            w.Malformed? || w.value % 0x1_0000_0000 < 8 ==> ReadRecord(bs).Malformed?
    ensures var w := ReadVarint(bs);
            w.Got? && w.value % 0x1_0000_0000 >= 8 ==>
              var p := ReadPayload(w.value % 0x1_0000_0000 % 8, bs[w.size..]);
              ReadRecord(bs) ==
                if p.Got? then Got(Record(w.value % 0x1_0000_0000, p.value), w.size + p.size) else Malformed
  {
  }

  lemma RecordWritten(tag: nat, p: Payload)
    ensures p.Varint? ==> WriteRecord(tag, p) == WriteVarint(tag) + WriteVarint(p.v)
    ensures p.Fixed64? || p.Fixed32? ==> WriteRecord(tag, p) == WriteVarint(tag) + p.b
    ensures p.Delimited? ==> WriteRecord(tag, p) == WriteVarint(tag) + (WriteVarint(|p.b|) + p.b)
  {
  }

  // ---------- One more field ----------

  lemma ParseNext(s: Schema, a: bytes, m: Message, tag: nat, p: Payload)
    requires Parse(s, a) == Some(m) && IsTagOf(tag, p)
    ensures Parse(s, a + WriteRecord(tag, p)) == Apply(s, m, Record(tag, p))
  {
    var w := WriteRecord(tag, p);
    ParseFromAppend(s, DEFAULT, a, w);
    assert w + [] == w;
    ReadWrittenRecord(tag, p, []);
    assert w[|w|..] == [];
    var n := Apply(s, m, Record(tag, p));
    if n.Some? {
      assert ParseFrom(s, n.value, w[|w|..]) == n;
    }
  }

  lemma ParseNextInt(s: Schema, a: bytes, m: Message, tag: nat, i: int32)
    requires Parse(s, a) == Some(m) && 8 <= tag < 128 && tag % 8 == 0
    ensures Parse(s, a + [tag] + WriteInt32(i)) == Apply(s, m, Record(tag, Varint(SignExtend(i))))
  {
    ParseNext(s, a, m, tag, Varint(SignExtend(i)));
    assert WriteVarint(tag) == [tag];
    assert a + [tag] + WriteInt32(i) == a + ([tag] + WriteInt32(i));
  }

  /** The last value wins for the optional fields 1, 5 and 6, whatever came before; an element of field 2 goes to the end. */
  lemma IntFieldsRead(s: Schema, a: bytes, m: Message, i: int32)
    requires Parse(s, a) == Some(m)
    ensures Parse(s, a + [8] + WriteInt32(i)) == Some(m.(scalar := Some(i)))
    ensures Parse(s, a + [16] + WriteInt32(i)) == Some(m.(vt := m.vt + [i]))
    ensures s.hasCounts ==> Parse(s, a + [40] + WriteInt32(i)) == Some(m.(opType := Some(i)))
    ensures s.hasId ==> Parse(s, a + [48] + WriteInt32(i)) == Some(m.(id := Some(i)))
  {
    Int32RoundTrip(i);
    ParseNextInt(s, a, m, 8, i);
    ParseNextInt(s, a, m, 16, i);
    ParseNextInt(s, a, m, 40, i);
    ParseNextInt(s, a, m, 48, i);
  }

  lemma BlockRecord(a: bytes, tag: nat, b: bytes)
    requires tag < 128
    ensures a + [tag] + WriteVarint(|b|) + b == a + WriteRecord(tag, Delimited(b))
  {
    VarintShape(tag);
    Assoc(a, [tag], WriteVarint(|b|));
    Assoc(a, [tag] + WriteVarint(|b|), b);
    Assoc([tag], WriteVarint(|b|), b);
  }

  lemma ParseNextBlock(s: Schema, a: bytes, m: Message, tag: nat, b: bytes)
    requires Parse(s, a) == Some(m) && 8 <= tag < 128 && tag % 8 == 2 && |b| < TWO_31
    ensures Parse(s, a + [tag] + WriteVarint(|b|) + b) == Apply(s, m, Record(tag, Delimited(b)))
  {
    BlockRecord(a, tag, b);
    ParseNext(s, a, m, tag, Delimited(b));
  }

  /** A packed block of field 2: its elements go to the end, and it has to hold whole elements. */
  lemma PackedFieldRead(s: Schema, a: bytes, m: Message, b: bytes)
    requires Parse(s, a) == Some(m) && |b| < TWO_31
    ensures Parse(s, a + [18] + WriteVarint(|b|) + b) ==
            if ReadInts(b).Some? then Some(m.(vt := m.vt + ReadInts(b).value)) else None
  {
    ParseNextBlock(s, a, m, 18, b);
  }

  lemma PackedElementsRead(i: int32, b: bytes)
    ensures ReadInts([]) == Some([])
    ensures ReadInts(WriteInt32(i) + b) == if ReadInts(b).Some? then Some([i] + ReadInts(b).value) else None
  {
    var w := WriteInt32(i);
    ReadWrittenInt32(i, b);
    assert (w + b)[|w|..] == b;
  }

  /** An entry of field 3 puts its key and value into the input counts. */
  lemma InputFieldRead(s: Schema, a: bytes, m: Message, b: bytes)
    requires Parse(s, a) == Some(m) && |b| < TWO_31 && s.hasCounts
    ensures Parse(s, a + [26] + WriteVarint(|b|) + b) ==
            if ReadEntry(b).Some? then Some(m.(inputs := m.inputs[ReadEntry(b).value.0 := ReadEntry(b).value.1])) else None
  {
    ParseNextBlock(s, a, m, 26, b);
    InputApplied(s, m, b);
  }

  lemma InputApplied(s: Schema, m: Message, b: bytes)
    requires |b| < TWO_31 && s.hasCounts
    ensures Apply(s, m, Record(26, Delimited(b))) ==
            if ReadEntry(b).Some? then Some(m.(inputs := m.inputs[ReadEntry(b).value.0 := ReadEntry(b).value.1])) else None
  {
  }

  /** An entry of field 4 goes into the output counts. */
  lemma OutputFieldRead(s: Schema, a: bytes, m: Message, b: bytes)
    requires Parse(s, a) == Some(m) && |b| < TWO_31 && s.hasCounts
    ensures Parse(s, a + [34] + WriteVarint(|b|) + b) ==
            if ReadEntry(b).Some? then Some(m.(outputs := m.outputs[ReadEntry(b).value.0 := ReadEntry(b).value.1])) else None
  {
    ParseNextBlock(s, a, m, 34, b);
    OutputApplied(s, m, b);
  }

  lemma OutputApplied(s: Schema, m: Message, b: bytes)
    requires |b| < TWO_31 && s.hasCounts
    ensures Apply(s, m, Record(34, Delimited(b))) ==
            if ReadEntry(b).Some? then Some(m.(outputs := m.outputs[ReadEntry(b).value.0 := ReadEntry(b).value.1])) else None
  {
  }

  lemma {:induction false} EntryAppend(a: bytes, b: bytes, key: int32, value: int32)
    requires ReadEntry(a, key, value).Some?
    ensures var r := ReadEntry(a, key, value).value;
            ReadEntry(a + b, key, value) == ReadEntry(b, r.0, r.1)
    decreases |a|
  {
    if a == [] {
      assert a + b == b;
    } else {
      var rec := ReadRecord(a);
      RecordPrefix(a, b);
      assert (a + b)[rec.size..] == a[rec.size..] + b;
      var k := if rec.value.tag == KEY_TAG then ToInt32(rec.value.payload.v) else key;
      var v := if rec.value.tag == VALUE_TAG then ToInt32(rec.value.payload.v) else value;
      EntryAppend(a[rec.size..], b, k, v);
    }
  }

  lemma EntryNext(a: bytes, k: int32, v: int32, tag: nat, i: int32)
    requires ReadEntry(a) == Some((k, v)) && (tag == 8 || tag == 16)
    ensures ReadEntry(a + [tag] + WriteInt32(i)) == Some(if tag == 8 then (i, v) else (k, i))
  {
    var w := WriteRecord(tag, Varint(SignExtend(i)));
    assert WriteVarint(tag) == [tag];
    assert a + [tag] + WriteInt32(i) == a + w;
    EntryAppend(a, w, 0, 0);
    ReadWrittenRecord(tag, Varint(SignExtend(i)), []);
    Int32RoundTrip(i);
    assert w + [] == w && w[|w|..] == [];
  }

  /** In an entry field 1 is the key and field 2 the value; the last one wins, and both are 0 unless given. */
  lemma EntryFieldsRead(a: bytes, k: int32, v: int32, i: int32)
    requires ReadEntry(a) == Some((k, v))
    ensures ReadEntry([]) == Some((0, 0))
    ensures ReadEntry(a + [8] + WriteInt32(i)) == Some((i, v))
    ensures ReadEntry(a + [16] + WriteInt32(i)) == Some((k, i))
  {
    EntryNext(a, k, v, 8, i);
    EntryNext(a, k, v, 16, i);
  }

  /** Anything else is kept as it is, behind what came before under the same tag. */
  lemma OtherFieldsRead(s: Schema, a: bytes, m: Message, tag: nat, p: Payload)
    requires Parse(s, a) == Some(m) && IsTagOf(tag, p) && tag !in {8, 16, 18}
    requires (s.hasCounts ==> tag !in {26, 34, 40}) && (s.hasId ==> tag != 48)
    ensures Parse(s, a + WriteRecord(tag, p)) ==
            Some(m.(unknown := m.unknown[tag := (if tag in m.unknown then m.unknown[tag] else []) + [p]]))
  {
    ParseNext(s, a, m, tag, p);
  }

  /** What is not a record is refused. */
  lemma MalformedRefused(s: Schema, a: bytes, m: Message, b: bytes)
    requires Parse(s, a) == Some(m) && b != [] && ReadRecord(b).Malformed?
    ensures Parse(s, a + b) == None
  {
    ParseFromAppend(s, DEFAULT, a, b);
  }

  // ---------- The message types ----------

  /** Which type declares what, and what its getters show of an unset field. */
  lemma TypesSay(m: Message)
    ensures !VT_STATE.hasCounts && !VT_STATE.hasId
    ensures SOURCE.hasCounts && SOURCE.hasId
    ensures MAP.hasCounts && REDUCE.hasCounts && SINK.hasCounts && !MAP.hasId && !REDUCE.hasId && !SINK.hasId
    ensures m.GetOperatorType(SOURCE) == if m.opType.Some? then m.opType.value else 1
    ensures m.GetOperatorType(MAP) == if m.opType.Some? then m.opType.value else 2
    ensures m.GetOperatorType(REDUCE) == if m.opType.Some? then m.opType.value else 3
    ensures m.GetOperatorType(SINK) == if m.opType.Some? then m.opType.value else 4
    ensures m.GetScalar() == if m.scalar.Some? then m.scalar.value else 0
    ensures m.GetId() == if m.id.Some? then m.id.value else 0
  {
  }

  /** No input, nothing set. */
  lemma EmptyInput(s: Schema)
    ensures Parse(s, []) == Some(Message(None, [], map[], map[], None, None, map[]))
  {
  }

  /** A map entry is its tag, its length, the key behind tag 8 and the value behind tag 16. */
  lemma EntryWritten(tag: nat, k: int32, v: int32)
    requires tag < 128
    ensures var body := [8] + WriteInt32(k) + [16] + WriteInt32(v);
            WriteEntry(tag, k, v) == [tag] + WriteVarint(|body|) + body
  {
    var body := [8] + WriteInt32(k) + [16] + WriteInt32(v);
    assert WriteVarint(8) == [8] && WriteVarint(16) == [16] && WriteVarint(tag) == [tag];
    assert EntryBody(k, v) == body;
  }

  // ---------- The tags that are written ----------

  /** The tags of the records in the input, in order. */
  function TagsOf(bs: bytes): seq<nat> {
    if bs == [] then []
    else
      var r := ReadRecord(bs);
      if r.Malformed? then [] else [r.value.tag] + TagsOf(bs[r.size..])
  }

  lemma TagsOfRecord(tag: nat, p: Payload, rest: bytes)
    requires IsTagOf(tag, p)
    ensures TagsOf(WriteRecord(tag, p) + rest) == [tag] + TagsOf(rest)
  {
    var w := WriteRecord(tag, p);
    ReadWrittenRecord(tag, p, rest);
    assert (w + rest)[|w|..] == rest;
  }

  lemma TagsOfScalar(tag: nat, o: Option<int32>, rest: bytes)
    requires 8 <= tag < 128 && tag % 8 == 0
    ensures TagsOf(WriteScalar(tag, o) + rest) == (if o.Some? then [tag] else []) + TagsOf(rest)
  {
    if o.Some? {
      TagsOfRecord(tag, Varint(SignExtend(o.value)), rest);
      assert WriteScalar(tag, o) == WriteRecord(tag, Varint(SignExtend(o.value)));
    } else {
      assert WriteScalar(tag, o) + rest == rest;
    }
  }

  lemma Repeat(n: nat, t: nat, tail: seq<nat>)
    ensures [t] + (seq(n, _ => t) + tail) == seq(n + 1, _ => t) + tail
  {
  }

  lemma {:induction false} TagsOfInts(xs: seq<int32>, rest: bytes)
    ensures TagsOf(WriteInts(xs) + rest) == seq(|xs|, _ => 16) + TagsOf(rest)
  {
    if xs == [] {
      assert WriteInts(xs) + rest == rest;
    } else {
      var p, tail := Varint(SignExtend(xs[0])), WriteInts(xs[1..]);
      TagsOfRecord(16, p, tail + rest);
      TagsOfInts(xs[1..], rest);
      Assoc(WriteRecord(16, p), tail, rest);
      Repeat(|xs| - 1, 16, TagsOf(rest));
    }
  }

  lemma TagsOfEntry(tag: nat, k: int32, v: int32, rest: bytes)
    requires 8 <= tag < 128 && tag % 8 == 2
    ensures TagsOf(WriteEntry(tag, k, v) + rest) == [tag] + TagsOf(rest)
  {
    EntryBodySize(k, v);
    EntryIsRecord(tag, k, v);
    TagsOfRecord(tag, Delimited(EntryBody(k, v)), rest);
  }

  lemma {:induction false} TagsOfCounts(tag: nat, c: Counts, order: seq<int32>, rest: bytes)
    requires 8 <= tag < 128 && tag % 8 == 2 && forall k <- order :: k in c
    ensures TagsOf(WriteCounts(tag, c, order) + rest) == seq(|order|, _ => tag) + TagsOf(rest)
  {
    if order == [] {
      assert WriteCounts(tag, c, order) + rest == rest;
    } else {
      var k := order[0];
      var tail := WriteCounts(tag, c, order[1..]);
      TagsOfEntry(tag, k, c[k], tail + rest);
      TagsOfCounts(tag, c, order[1..], rest);
      Assoc(WriteEntry(tag, k, c[k]), tail, rest);
      Repeat(|order| - 1, tag, TagsOf(rest));
    }
  }

  lemma {:induction false} TagsOfPayloads(tag: nat, ps: seq<Payload>, rest: bytes)
    requires forall p <- ps :: IsTagOf(tag, p)
    ensures TagsOf(WritePayloads(tag, ps) + rest) == seq(|ps|, _ => tag) + TagsOf(rest)
  {
    if ps == [] {
      assert WritePayloads(tag, ps) + rest == rest;
    } else {
      var tail := WritePayloads(tag, ps[1..]);
      TagsOfRecord(tag, ps[0], tail + rest);
      TagsOfPayloads(tag, ps[1..], rest);
      Assoc(WriteRecord(tag, ps[0]), tail, rest);
      Repeat(|ps| - 1, tag, TagsOf(rest));
    }
  }

  /** Each unknown tag as often as it has payloads. */
  function UnknownTags(u: UnknownFields, order: seq<nat>): seq<nat>
    requires forall tag <- order :: tag in u
  {
    if order == [] then [] else seq(|u[order[0]]|, _ => order[0]) + UnknownTags(u, order[1..])
  }

  lemma {:induction false} TagsOfUnknown(u: UnknownFields, order: seq<nat>)
    requires WellTagged(u) && forall tag <- order :: tag in u
    ensures TagsOf(WriteUnknown(u, order)) == UnknownTags(u, order)
  {
    if order != [] {
      TagsOfPayloads(order[0], u[order[0]], WriteUnknown(u, order[1..]));
      TagsOfUnknown(u, order[1..]);
    }
  }

  lemma Assoc7<X>(a: seq<X>, b: seq<X>, c: seq<X>, d: seq<X>, e: seq<X>, f: seq<X>, g: seq<X>)
    ensures a + b + c + d + e + f + g == a + (b + (c + (d + (e + (f + g)))))
  {
    Assoc(a, b, c);
    Assoc(a, b + c, d);
    Assoc(b, c, d);
    Assoc(a, b + (c + d), e);
    Assoc(b, c + d, e);
    Assoc(c, d, e);
    Assoc(a, b + (c + (d + e)), f);
    Assoc(b, c + (d + e), f);
    Assoc(c, d + e, f);
    Assoc(d, e, f);
    Assoc(a, b + (c + (d + (e + f))), g);
    Assoc(b, c + (d + (e + f)), g);
    Assoc(c, d + (e + f), g);
    Assoc(d, e + f, g);
    Assoc(e, f, g);
  }

  lemma TagsOfTail(m: Message, o: Order)
    requires o.For(m) && WellTagged(m.unknown)
    ensures TagsOf(WriteCounts(34, m.outputs, o.outputs)
                   + (WriteScalar(40, m.opType) + (WriteScalar(48, m.id) + WriteUnknown(m.unknown, o.unknown)))) ==
            seq(|m.outputs|, _ => 34)
            + ((if m.opType.Some? then [40] else [])
               + ((if m.id.Some? then [48] else []) + UnknownTags(m.unknown, o.unknown)))
  {
    var e, f, g := WriteScalar(40, m.opType), WriteScalar(48, m.id), WriteUnknown(m.unknown, o.unknown);
    assert |o.outputs| == |m.outputs|;
    TagsOfCounts(34, m.outputs, o.outputs, e + (f + g));
    TagsOfScalar(40, m.opType, f + g);
    TagsOfScalar(48, m.id, g);
    TagsOfUnknown(m.unknown, o.unknown);
  }

  /** writeTo emits the declared fields in the order of their numbers, each list element and map entry under a tag of its
      own, and the unknown fields behind them. */
  lemma TagsWritten(m: Message, o: Order)
    requires o.For(m) && WellTagged(m.unknown)
    ensures TagsOf(Write(m, o)) ==
            (if m.scalar.Some? then [8] else [])
            + seq(|m.vt|, _ => 16)
            + seq(|m.inputs|, _ => 26)
            + seq(|m.outputs|, _ => 34)
            + (if m.opType.Some? then [40] else [])
            + (if m.id.Some? then [48] else [])
            + UnknownTags(m.unknown, o.unknown)
  {
    var a, b, c := WriteScalar(8, m.scalar), WriteInts(m.vt), WriteCounts(26, m.inputs, o.inputs);
    var d, e := WriteCounts(34, m.outputs, o.outputs), WriteScalar(40, m.opType);
    var f, g := WriteScalar(48, m.id), WriteUnknown(m.unknown, o.unknown);
    Assoc7(a, b, c, d, e, f, g);
    Assoc7(if m.scalar.Some? then [8] else [], seq(|m.vt|, _ => 16), seq(|m.inputs|, _ => 26), seq(|m.outputs|, _ => 34),
           if m.opType.Some? then [40] else [], if m.id.Some? then [48] else [], UnknownTags(m.unknown, o.unknown));
    assert |o.inputs| == |m.inputs|;
    var tail := d + (e + (f + g));
    TagsOfScalar(8, m.scalar, b + (c + tail));
    TagsOfInts(m.vt, c + tail);
    TagsOfCounts(26, m.inputs, o.inputs, tail);
    TagsOfTail(m, o);
  }
}
