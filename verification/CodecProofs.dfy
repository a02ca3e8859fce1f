/**
 What the generated codec is for: merging is a monoid, parsing a concatenation
 is merging, parsing undoes writing, packed and unpacked lists agree, and the
 announced size is the written size.
 */
module CodecProofs {
  import opened Basics
  import opened Wire
  import opened OperatorState

  // ---------- mergeFrom is a monoid ----------

  lemma EmptyUnknown(u: UnknownFields)
    ensures MergeUnknown(u, map[]) == u
    ensures MergeUnknown(map[], u) == u
  {
    EmptySecond(u);
    EmptyFirst(u);
  }

  lemma EmptySecond(u: UnknownFields)
    ensures MergeUnknown(u, map[]) == u
  {
    forall tag | tag in u.Keys
      ensures Lookup(MergeUnknown(u, map[]), tag) == Lookup(u, tag)
    {
      LookupMerged(u, map[], tag);
      assert Lookup(u, tag) + [] == Lookup(u, tag);
    }
    SameLookups(MergeUnknown(u, map[]), u);
  }

  lemma EmptyFirst(u: UnknownFields)
    ensures MergeUnknown(map[], u) == u
  {
    forall tag | tag in u.Keys
      ensures Lookup(MergeUnknown(map[], u), tag) == Lookup(u, tag)
    {
      LookupMerged(map[], u, tag);
      assert [] + Lookup(u, tag) == Lookup(u, tag);
    }
    SameLookups(MergeUnknown(map[], u), u);
  }

  lemma LookupMerged(x: UnknownFields, y: UnknownFields, tag: nat)
    ensures Lookup(MergeUnknown(x, y), tag) == Lookup(x, tag) + Lookup(y, tag)
  {
  }

  lemma LookupAssociative(x: UnknownFields, y: UnknownFields, z: UnknownFields,
                          xy: UnknownFields, yz: UnknownFields, tag: nat)
    requires Lookup(xy, tag) == Lookup(x, tag) + Lookup(y, tag)
    requires Lookup(yz, tag) == Lookup(y, tag) + Lookup(z, tag)
    ensures Lookup(MergeUnknown(xy, z), tag) == Lookup(MergeUnknown(x, yz), tag)
  {
    LookupMerged(xy, z, tag);
    LookupMerged(x, yz, tag);
    var a, b, c := Lookup(x, tag), Lookup(y, tag), Lookup(z, tag);
    assert (a + b) + c == a + (b + c);
  }

  lemma SameLookups(u: UnknownFields, v: UnknownFields)
    requires u.Keys == v.Keys
    requires forall tag <- u.Keys :: Lookup(u, tag) == Lookup(v, tag)
    ensures u == v
  {
    forall tag | tag in u
      ensures u[tag] == v[tag]
    {
      assert Lookup(u, tag) == Lookup(v, tag);
    }
  }

  lemma UnknownAssociative(x: UnknownFields, y: UnknownFields, z: UnknownFields)
    ensures MergeUnknown(MergeUnknown(x, y), z) == MergeUnknown(x, MergeUnknown(y, z))
  {
    var xy, yz := MergeUnknown(x, y), MergeUnknown(y, z);
    forall tag | tag in MergeUnknown(xy, z).Keys
      ensures Lookup(MergeUnknown(xy, z), tag) == Lookup(MergeUnknown(x, yz), tag)
    {
      LookupMerged(x, y, tag);
      LookupMerged(y, z, tag);
      LookupAssociative(x, y, z, xy, yz, tag);
    }
    SameLookups(MergeUnknown(xy, z), MergeUnknown(x, yz));
  }

  lemma AppendOne(x: UnknownFields, y: UnknownFields, tag: nat, p: Payload)
    ensures Lookup(MergeUnknown(x, y[tag := Lookup(y, tag) + [p]]), tag) == Lookup(MergeUnknown(x, y), tag) + [p]
  {
    LookupMerged(x, y, tag);
    LookupMerged(x, y[tag := Lookup(y, tag) + [p]], tag);
    var a, b := Lookup(x, tag), Lookup(y, tag);
    assert (a + b) + [p] == a + (b + [p]);
  }

  lemma AppendOther(x: UnknownFields, y: UnknownFields, tag: nat, ps: seq<Payload>, other: nat)
    requires other != tag
    ensures Lookup(MergeUnknown(x, y[tag := ps]), other) == Lookup(MergeUnknown(x, y), other)
  {
    LookupMerged(x, y, other);
    LookupMerged(x, y[tag := ps], other);
  }

  lemma AppendUnknown(x: UnknownFields, y: UnknownFields, tag: nat, p: Payload)
    ensures MergeUnknown(x, y)[tag := Lookup(MergeUnknown(x, y), tag) + [p]]
         == MergeUnknown(x, y[tag := Lookup(y, tag) + [p]])
  {
    var ps := Lookup(y, tag) + [p];
    var left, right := MergeUnknown(x, y)[tag := Lookup(MergeUnknown(x, y), tag) + [p]], MergeUnknown(x, y[tag := ps]);
    forall t | t in left.Keys
      ensures Lookup(left, t) == Lookup(right, t)
    {
      if t == tag {
        AppendOne(x, y, tag, p);
      } else {
        AppendOther(x, y, tag, ps, t);
      }
    }
    SameLookups(left, right);
  }

  /** The default instance is the identity of mergeFrom. */
  lemma MergeIdentity(m: Message)
    ensures Merge(m, DEFAULT) == m
    ensures Merge(DEFAULT, m) == m
  {
    EmptyUnknown(m.unknown);
  }

  /** mergeFrom field by field: a scalar is the other's if that is set, lists are joined, maps overridden key by key, and
      unknown fields joined tag by tag. */
  lemma MergeSays(x: Message, y: Message)
    ensures Merge(x, y).scalar == (if y.scalar.Some? then y.scalar else x.scalar)
    ensures Merge(x, y).opType == (if y.opType.Some? then y.opType else x.opType)
    ensures Merge(x, y).id == (if y.id.Some? then y.id else x.id)
    ensures Merge(x, y).vt == x.vt + y.vt
    ensures forall k :: k in Merge(x, y).inputs <==> k in x.inputs || k in y.inputs
    ensures forall k <- Merge(x, y).inputs :: Merge(x, y).inputs[k] == if k in y.inputs then y.inputs[k] else x.inputs[k]
    ensures forall k :: k in Merge(x, y).outputs <==> k in x.outputs || k in y.outputs
    ensures forall k <- Merge(x, y).outputs :: Merge(x, y).outputs[k] == if k in y.outputs then y.outputs[k] else x.outputs[k]
    ensures forall t :: t in Merge(x, y).unknown <==> t in x.unknown || t in y.unknown
    ensures forall t <- Merge(x, y).unknown ::
              Merge(x, y).unknown[t] ==
                (if t in x.unknown then x.unknown[t] else []) + (if t in y.unknown then y.unknown[t] else [])
  {
  }

  lemma MergeAssociative(x: Message, y: Message, z: Message)
    ensures Merge(Merge(x, y), z) == Merge(x, Merge(y, z))
  {
    assert (x.vt + y.vt) + z.vt == x.vt + (y.vt + z.vt);
    assert (x.inputs + y.inputs) + z.inputs == x.inputs + (y.inputs + z.inputs);
    assert (x.outputs + y.outputs) + z.outputs == x.outputs + (y.outputs + z.outputs);
    UnknownAssociative(x.unknown, y.unknown, z.unknown);
  }

  // ---------- Concatenation is merge ----------

  ghost function MergeInto(x: Message, y: Option<Message>): Option<Message> {
    if y.None? then None else Some(Merge(x, y.value))
  }

  /** A parsing step on a merged message is the step on its right part. */
  lemma ApplyMerge(s: Schema, x: Message, y: Message, r: Record)
    requires r.WellFormed()
    ensures Apply(s, Merge(x, y), r) == MergeInto(x, Apply(s, y, r))
  {
    if r.tag == VT_TAG {
      assert (x.vt + y.vt) + [ToInt32(r.payload.v)] == x.vt + (y.vt + [ToInt32(r.payload.v)]);
    } else if r.tag == VT_PACKED_TAG {
      var xs := ReadInts(r.payload.b);
      assert xs.Some? ==> (x.vt + y.vt) + xs.value == x.vt + (y.vt + xs.value);
    } else if s.hasCounts && r.tag == INPUT_TAG {
      PutMerged(x.inputs, y.inputs, r.payload.b);
    } else if s.hasCounts && r.tag == OUTPUT_TAG {
      PutMerged(x.outputs, y.outputs, r.payload.b);
    } else if !Known(s, r.tag) {
      AppendUnknown(x.unknown, y.unknown, r.tag, r.payload);
    }
  }

  lemma PutMerged(x: Counts, y: Counts, body: bytes)
    ensures var c := PutEntry(y, body);
            PutEntry(x + y, body) == if c.None? then None else Some(x + c.value)
  {
    var e := ReadEntry(body);
    if e.Some? {
      assert (x + y)[e.value.0 := e.value.1] == x + y[e.value.0 := e.value.1];
    }
  }

  lemma {:induction false} ParseFromMerge(s: Schema, x: Message, y: Message, bs: bytes)
    ensures ParseFrom(s, Merge(x, y), bs) == MergeInto(x, ParseFrom(s, y, bs))
    decreases |bs|
  {
    if bs != [] {
      var rec := ReadRecord(bs);
      if rec.Got? {
        ApplyMerge(s, x, y, rec.value);
        var y' := Apply(s, y, rec.value);
        if y'.Some? {
          ParseFromMerge(s, x, y'.value, bs[rec.size..]);
        }
      }
    }
  }

  lemma {:induction false} ParseFromAppend(s: Schema, m: Message, a: bytes, b: bytes)
    requires ParseFrom(s, m, a).Some?
    ensures ParseFrom(s, m, a + b) == ParseFrom(s, ParseFrom(s, m, a).value, b)
    decreases |a|
  {
    if a == [] {
      assert a + b == b;
    } else {
      var rec := ReadRecord(a);
      RecordPrefix(a, b);
      assert (a + b)[rec.size..] == a[rec.size..] + b;
      ParseFromAppend(s, Apply(s, m, rec.value).value, a[rec.size..], b);
    }
  }

  /** Parsing two messages back to back fails if the second does and merges it into the first otherwise. */
  lemma ConcatenationIsMerge(s: Schema, a: bytes, b: bytes)
    requires Parse(s, a).Some?
    ensures Parse(s, a + b) == MergeInto(Parse(s, a).value, Parse(s, b))
    ensures Parse(s, a + b) ==
            if Parse(s, b).None? then None else Some(Merge(Parse(s, a).value, Parse(s, b).value))
  {
    var x := Parse(s, a).value;
    ParseFromAppend(s, DEFAULT, a, b);
    MergeIdentity(x);
    ParseFromMerge(s, x, DEFAULT, b);
  }

  /** Two inputs that parse, in one call. */
  lemma ParseBoth(s: Schema, a: bytes, x: Message, b: bytes, y: Message)
    requires Parse(s, a) == Some(x) && Parse(s, b) == Some(y)
    ensures Parse(s, a + b) == Some(Merge(x, y))
  {
    ConcatenationIsMerge(s, a, b);
  }

  // ---------- Parsing undoes writing, field by field ----------

  lemma ParseRecord(s: Schema, tag: nat, p: Payload)
    requires IsTagOf(tag, p)
    ensures Parse(s, WriteRecord(tag, p)) == Apply(s, DEFAULT, Record(tag, p))
  {
    var w := WriteRecord(tag, p);
    assert w + [] == w;
    ReadWrittenRecord(tag, p, []);
    assert w[|w|..] == [];
    var m := Apply(s, DEFAULT, Record(tag, p));
    if m.Some? {
      assert ParseFrom(s, m.value, w[|w|..]) == m;
    }
  }

  lemma ParseTagged(s: Schema, tag: nat, i: int32)
    requires tag in {SCALAR_TAG, VT_TAG} || (s.hasCounts && tag == TYPE_TAG) || (s.hasId && tag == ID_TAG)
    ensures Parse(s, WriteTagged(tag, i)) ==
      Some(if tag == SCALAR_TAG then DEFAULT.(scalar := Some(i))
           else if tag == VT_TAG then DEFAULT.(vt := [i])
           else if tag == TYPE_TAG then DEFAULT.(opType := Some(i))
           else DEFAULT.(id := Some(i)))
  {
    ParseRecord(s, tag, Varint(SignExtend(i)));
    Int32RoundTrip(i);
    assert WriteTagged(tag, i) == WriteRecord(tag, Varint(SignExtend(i)));
    assert [] + [i] == [i];
  }

  lemma {:induction false} ParseInts(s: Schema, xs: seq<int32>)
    ensures Parse(s, WriteInts(xs)) == Some(DEFAULT.(vt := xs))
  {
    if xs != [] {
      var head, tail := DEFAULT.(vt := [xs[0]]), DEFAULT.(vt := xs[1..]);
      ParseTagged(s, VT_TAG, xs[0]);
      ParseInts(s, xs[1..]);
      ParseBoth(s, WriteTagged(VT_TAG, xs[0]), head, WriteInts(xs[1..]), tail);
      assert [xs[0]] + xs[1..] == xs;
      EmptyUnknown(map[]);
    }
  }

  lemma Int32Bytes(i: int32)
    ensures 1 <= |WriteInt32(i)| <= MAX_VARINT_BYTES
  {
    Uint64FitsTenBytes();
    ReadWrittenVarint(SignExtend(i), MAX_VARINT_BYTES, []);
  }

  lemma EntryBodySize(k: int32, v: int32)
    ensures |EntryBody(k, v)| == 2 + |WriteInt32(k)| + |WriteInt32(v)| <= 22
  {
    Int32Bytes(k);
    Int32Bytes(v);
  }

  lemma ReadEntryBody(k: int32, v: int32)
    ensures ReadEntry(EntryBody(k, v)) == Some((k, v))
  {
    var kb, vb := WriteTagged(KEY_TAG, k), WriteTagged(VALUE_TAG, v);
    ReadWrittenRecord(KEY_TAG, Varint(SignExtend(k)), vb);
    ReadWrittenRecord(VALUE_TAG, Varint(SignExtend(v)), []);
    Int32RoundTrip(k);
    Int32RoundTrip(v);
    assert (kb + vb)[|kb|..] == vb;
    assert vb + [] == vb;
    assert ReadEntry(vb, k, 0) == ReadEntry([], k, v);
  }

  function SetCounts(tag: nat, c: Counts): Message {
    if tag == INPUT_TAG then DEFAULT.(inputs := c) else DEFAULT.(outputs := c)
  }

  lemma EntryIsRecord(tag: nat, k: int32, v: int32)
    ensures WriteEntry(tag, k, v) == WriteRecord(tag, Delimited(EntryBody(k, v)))
  {
    var t, n, body := WriteVarint(tag), WriteVarint(|EntryBody(k, v)|), EntryBody(k, v);
    assert (t + n) + body == t + (n + body);
  }

  lemma ParseEntry(s: Schema, tag: nat, k: int32, v: int32)
    requires s.hasCounts && tag in {INPUT_TAG, OUTPUT_TAG}
    ensures Parse(s, WriteEntry(tag, k, v)) == Some(SetCounts(tag, map[k := v]))
  {
    var body := EntryBody(k, v);
    EntryBodySize(k, v);
    ReadEntryBody(k, v);
    EntryIsRecord(tag, k, v);
    ParseRecord(s, tag, Delimited(body));
    var none: Counts := map[];
    assert none[k := v] == map[k := v];
  }

  /** The part of a map that an iteration order visits. */
  function Pick<K, V>(m: map<K, V>, order: seq<K>): (r: map<K, V>)
    requires forall k <- order :: k in m
    ensures forall k <- r :: k in order
    ensures forall k <- order :: k in r && r[k] == m[k]
  {
    if order == [] then map[] else map[order[0] := m[order[0]]] + Pick(m, order[1..])
  }

  lemma PickAll<K(!new), V>(m: map<K, V>, order: seq<K>)
    requires Enumerates(order, m.Keys)
    ensures Pick(m, order) == m
  {
  }

  lemma {:induction false} ParseCounts(s: Schema, tag: nat, c: Counts, order: seq<int32>)
    requires s.hasCounts && tag in {INPUT_TAG, OUTPUT_TAG}
    requires forall k <- order :: k in c
    ensures Parse(s, WriteCounts(tag, c, order)) == Some(SetCounts(tag, Pick(c, order)))
  {
    if order != [] {
      var k := order[0];
      ParseEntry(s, tag, k, c[k]);
      ParseCounts(s, tag, c, order[1..]);
      ParseBoth(s, WriteEntry(tag, k, c[k]), SetCounts(tag, map[k := c[k]]),
                WriteCounts(tag, c, order[1..]), SetCounts(tag, Pick(c, order[1..])));
      MergeSetCounts(tag, map[k := c[k]], Pick(c, order[1..]));
    }
  }

  lemma MergeSetCounts(tag: nat, a: Counts, b: Counts)
    ensures Merge(SetCounts(tag, a), SetCounts(tag, b)) == SetCounts(tag, a + b)
  {
    EmptyUnknown(map[]);
  }

  function OnlyUnknown(u: UnknownFields): Message {
    DEFAULT.(unknown := u)
  }

  lemma MergeOnlyUnknown(a: UnknownFields, b: UnknownFields)
    ensures Merge(OnlyUnknown(a), OnlyUnknown(b)) == OnlyUnknown(MergeUnknown(a, b))
  {
  }

  lemma MergeSameTag(tag: nat, a: seq<Payload>, b: seq<Payload>)
    ensures Merge(OnlyUnknown(map[tag := a]), OnlyUnknown(map[tag := b])) == OnlyUnknown(map[tag := a + b])
  {
    MergeOnlyUnknown(map[tag := a], map[tag := b]);
    assert MergeUnknown(map[tag := a], map[tag := b]) == map[tag := a + b];
  }

  lemma ParsePayload(s: Schema, tag: nat, p: Payload)
    requires !Known(s, tag) && IsTagOf(tag, p)
    ensures Parse(s, WriteRecord(tag, p)) == Some(OnlyUnknown(map[tag := [p]]))
  {
    ParseRecord(s, tag, p);
    assert [] + [p] == [p];
    var none: UnknownFields := map[];
    assert none[tag := [p]] == map[tag := [p]];
  }

  lemma {:induction false} ParsePayloads(s: Schema, tag: nat, ps: seq<Payload>)
    requires !Known(s, tag) && ps != []
    requires forall p <- ps :: IsTagOf(tag, p)
    ensures Parse(s, WritePayloads(tag, ps)) == Some(OnlyUnknown(map[tag := ps]))
  {
    ParsePayload(s, tag, ps[0]);
    assert ps == [ps[0]] + ps[1..];
    if |ps| == 1 {
      assert WritePayloads(tag, ps[1..]) == [];
      assert WritePayloads(tag, ps) == WriteRecord(tag, ps[0]);
      assert [ps[0]] == ps;
    } else {
      ParsePayloads(s, tag, ps[1..]);
      ParseBoth(s, WriteRecord(tag, ps[0]), OnlyUnknown(map[tag := [ps[0]]]),
                WritePayloads(tag, ps[1..]), OnlyUnknown(map[tag := ps[1..]]));
      MergeSameTag(tag, [ps[0]], ps[1..]);
    }
  }

  lemma MergeDisjointUnknown(a: UnknownFields, b: UnknownFields)
    requires a.Keys !! b.Keys
    ensures Merge(OnlyUnknown(a), OnlyUnknown(b)) == OnlyUnknown(a + b)
  {
    var m := MergeUnknown(a, b);
    assert m.Keys == (a + b).Keys;
    forall tag | tag in m
      ensures m[tag] == (a + b)[tag]
    {
      assert Lookup(a, tag) + [] == Lookup(a, tag);
      assert [] + Lookup(b, tag) == Lookup(b, tag);
    }
  }

  lemma {:induction false} ParseUnknown(s: Schema, u: UnknownFields, order: seq<nat>)
    requires forall tag <- order :: tag in u && !Known(s, tag) && u[tag] != []
    requires forall tag <- order, p <- u[tag] :: IsTagOf(tag, p)
    requires forall i, j :: 0 <= i < j < |order| ==> order[i] != order[j]
    ensures Parse(s, WriteUnknown(u, order)) == Some(OnlyUnknown(Pick(u, order)))
  {
    if order != [] {
      var tag := order[0];
      ParsePayloads(s, tag, u[tag]);
      ParseUnknown(s, u, order[1..]);
      ParseBoth(s, WritePayloads(tag, u[tag]), OnlyUnknown(map[tag := u[tag]]),
                WriteUnknown(u, order[1..]), OnlyUnknown(Pick(u, order[1..])));
      MergeDisjointUnknown(map[tag := u[tag]], Pick(u, order[1..]));
    }
  }

  // ---------- Round trip ----------

  lemma ParseOptional(s: Schema, tag: nat, o: Option<int32>)
    requires tag == SCALAR_TAG || (tag == TYPE_TAG && (o.Some? ==> s.hasCounts)) || (tag == ID_TAG && (o.Some? ==> s.hasId))
    ensures Parse(s, WriteScalar(tag, o)) ==
      Some(if tag == SCALAR_TAG then DEFAULT.(scalar := o)
           else if tag == TYPE_TAG then DEFAULT.(opType := o)
           else DEFAULT.(id := o))
  {
    if o.Some? {
      ParseTagged(s, tag, o.value);
    }
  }

  lemma ParseAllCounts(s: Schema, tag: nat, c: Counts, order: seq<int32>)
    requires tag in {INPUT_TAG, OUTPUT_TAG} && (s.hasCounts || c == map[])
    requires Enumerates(order, c.Keys)
    ensures Parse(s, WriteCounts(tag, c, order)) == Some(SetCounts(tag, c))
  {
    PickAll(c, order);
    if s.hasCounts {
      ParseCounts(s, tag, c, order);
    } else {
      assert |order| == |c.Keys| == 0;
    }
  }

  /** Adding the fields of a message one by one, in the order writeTo visits them. */
  lemma MergeFields(m: Message)
    ensures var m1 := DEFAULT.(scalar := m.scalar);
            var m2 := m1.(vt := m.vt);
            var m3 := m2.(inputs := m.inputs);
            var m4 := m3.(outputs := m.outputs);
            var m5 := m4.(opType := m.opType);
            var m6 := m5.(id := m.id);
            && Merge(m1, DEFAULT.(vt := m.vt)) == m2
            && Merge(m2, SetCounts(INPUT_TAG, m.inputs)) == m3
            && Merge(m3, SetCounts(OUTPUT_TAG, m.outputs)) == m4
            && Merge(m4, DEFAULT.(opType := m.opType)) == m5
            && Merge(m5, DEFAULT.(id := m.id)) == m6
            && Merge(m6, OnlyUnknown(m.unknown)) == m
  {
    EmptyUnknown(map[]);
    EmptyUnknown(m.unknown);
    assert [] + m.vt == m.vt && m.vt + [] == m.vt;
    assert map[] + m.inputs == m.inputs && m.inputs + map[] == m.inputs;
    assert map[] + m.outputs == m.outputs && m.outputs + map[] == m.outputs;
  }

  /** Every message the generated code can hold comes back from its bytes, in any iteration order. */
  lemma RoundTrip(s: Schema, m: Message, o: Order)
    requires Canonical(s, m) && o.For(m)
    ensures Parse(s, Write(m, o)) == Some(m)
  {
    var m1 := DEFAULT.(scalar := m.scalar);
    var m2 := m1.(vt := m.vt);
    var m3 := m2.(inputs := m.inputs);
    var m4 := m3.(outputs := m.outputs);
    var m5 := m4.(opType := m.opType);
    var m6 := m5.(id := m.id);
    MergeFields(m);
    var w := WriteScalar(SCALAR_TAG, m.scalar);
    ParseOptional(s, SCALAR_TAG, m.scalar);
    ParseInts(s, m.vt);
    ParseBoth(s, w, m1, WriteInts(m.vt), DEFAULT.(vt := m.vt));
    w := w + WriteInts(m.vt);
    ParseAllCounts(s, INPUT_TAG, m.inputs, o.inputs);
    ParseBoth(s, w, m2, WriteCounts(INPUT_TAG, m.inputs, o.inputs), SetCounts(INPUT_TAG, m.inputs));
    w := w + WriteCounts(INPUT_TAG, m.inputs, o.inputs);
    ParseAllCounts(s, OUTPUT_TAG, m.outputs, o.outputs);
    ParseBoth(s, w, m3, WriteCounts(OUTPUT_TAG, m.outputs, o.outputs), SetCounts(OUTPUT_TAG, m.outputs));
    w := w + WriteCounts(OUTPUT_TAG, m.outputs, o.outputs);
    ParseOptional(s, TYPE_TAG, m.opType);
    ParseBoth(s, w, m4, WriteScalar(TYPE_TAG, m.opType), DEFAULT.(opType := m.opType));
    w := w + WriteScalar(TYPE_TAG, m.opType);
    ParseOptional(s, ID_TAG, m.id);
    ParseBoth(s, w, m5, WriteScalar(ID_TAG, m.id), DEFAULT.(id := m.id));
    w := w + WriteScalar(ID_TAG, m.id);
    ParseUnknown(s, m.unknown, o.unknown);
    PickAll(m.unknown, o.unknown);
    ParseBoth(s, w, m6, WriteUnknown(m.unknown, o.unknown), OnlyUnknown(m.unknown));
  }

  lemma ApplyCanonical(s: Schema, m: Message, r: Record)
    requires r.WellFormed() && Canonical(s, m) && Apply(s, m, r).Some?
    ensures Canonical(s, Apply(s, m, r).value)
  {
  }

  lemma {:induction false} ParseFromCanonical(s: Schema, m: Message, bs: bytes)
    requires Canonical(s, m) && ParseFrom(s, m, bs).Some?
    ensures Canonical(s, ParseFrom(s, m, bs).value)
    decreases |bs|
  {
    if bs != [] {
      var rec := ReadRecord(bs);
      ApplyCanonical(s, m, rec.value);
      ParseFromCanonical(s, Apply(s, m, rec.value).value, bs[rec.size..]);
    }
  }

  /** The round trip holds exactly for canonical messages: an "unknown" field with a declared tag does not survive it. */
  lemma RoundTripExactly(s: Schema, m: Message, o: Order)
    requires o.For(m)
    ensures Parse(s, Write(m, o)) == Some(m) <==> Canonical(s, m)
  {
    if Canonical(s, m) {
      RoundTrip(s, m, o);
    }
    if Parse(s, Write(m, o)) == Some(m) {
      ParseFromCanonical(s, DEFAULT, Write(m, o));
    }
  }

  /** Field 1 put among the unknown fields comes back as field 1. */
  lemma MisplacedFieldIsMoved(s: Schema, m: Message, o: Order)
    requires m == DEFAULT.(unknown := map[SCALAR_TAG := [Varint(5)]]) && o.For(m)
    ensures Parse(s, Write(m, o)) != Some(m)
  {
    RoundTripExactly(s, m, o);
    assert SCALAR_TAG in m.unknown && Known(s, SCALAR_TAG);
  }

  /** A message that came off the wire is a fixed point of write-then-parse. */
  lemma ReparseIsIdentity(s: Schema, bs: bytes, o: Order)
    requires Parse(s, bs).Some? && o.For(Parse(s, bs).value)
    ensures Parse(s, Write(Parse(s, bs).value, o)) == Parse(s, bs)
  {
    ParseFromCanonical(s, DEFAULT, bs);
    RoundTrip(s, Parse(s, bs).value, o);
  }

  // ---------- Across message types ----------

  /** What a map operator's message makes of a source operator's: field 6 is unknown to it. */
  function AsMap(m: Message): Message {
    if m.id.None? then m else m.(id := None, unknown := map[ID_TAG := [Varint(SignExtend(m.id.value))]])
  }

  lemma WriteAsMap(m: Message, o: Order, q: Order)
    requires m.unknown == map[] && o.For(m) && q.For(AsMap(m)) && o.inputs == q.inputs && o.outputs == q.outputs
    ensures Write(AsMap(m), q) == Write(m, o)
  {
    assert o.unknown == [];
    if m.id.Some? {
      var p := Varint(SignExtend(m.id.value));
      assert q.unknown == [ID_TAG];
      assert AsMap(m).unknown[ID_TAG] == [p];
      assert WriteRecord(ID_TAG, p) == WriteTagged(ID_TAG, m.id.value);
      assert WritePayloads(ID_TAG, [p]) == WriteRecord(ID_TAG, p) + [];
      assert WriteUnknown(AsMap(m).unknown, [ID_TAG]) == WriteTagged(ID_TAG, m.id.value) + [];
    } else {
      assert q.unknown == [];
    }
  }

  lemma AsMapIsCanonical(m: Message)
    requires Canonical(SOURCE, m) && m.unknown == map[]
    ensures Canonical(MAP, AsMap(m)) && Canonical(REDUCE, AsMap(m)) && Canonical(SINK, AsMap(m))
  {
    if m.id.Some? {
      assert !Known(MAP, ID_TAG) && !Known(REDUCE, ID_TAG) && !Known(SINK, ID_TAG);
      assert IsTagOf(ID_TAG, Varint(SignExtend(m.id.value)));
    }
  }

  /** A source operator's message passes unharmed through the other operators' message types, which know nothing of its
      field 6: they keep it among the unknown fields, and write the same bytes again. */
  lemma SourcePassesThrough(m: Message, o: Order, q: Order)
    requires Canonical(SOURCE, m) && m.unknown == map[]
    requires o.For(m) && q.For(AsMap(m)) && o.inputs == q.inputs && o.outputs == q.outputs
    ensures Parse(MAP, Write(m, o)) == Parse(REDUCE, Write(m, o)) == Parse(SINK, Write(m, o)) == Some(AsMap(m))
    ensures Parse(SOURCE, Write(AsMap(m), q)) == Some(m)
  {
    WriteAsMap(m, o, q);
    AsMapIsCanonical(m);
    RoundTrip(MAP, AsMap(m), q);
    RoundTrip(REDUCE, AsMap(m), q);
    RoundTrip(SINK, AsMap(m), q);
    RoundTrip(SOURCE, m, o);
  }

  /** On fields 1 and 2 all message types agree: each reads what another wrote. */
  lemma CommonFieldsAgree(m: Message, o: Order)
    requires Canonical(VT_STATE, m) && m.unknown == map[] && o.For(m)
    ensures forall s <- {VT_STATE, SOURCE, MAP, REDUCE, SINK} :: Parse(s, Write(m, o)) == Some(m)
  {
    forall s | s in {VT_STATE, SOURCE, MAP, REDUCE, SINK}
      ensures Parse(s, Write(m, o)) == Some(m)
    {
      RoundTrip(s, m, o);
    }
  }
}
