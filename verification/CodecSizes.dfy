/**
 getSerializedSize and writeTo walk a message with independent code.  The
 announced size is the number of bytes written, even when the two walks visit
 the maps in different orders.
 */
module CodecSizes {
  import opened Basics
  import opened Wire
  import opened OperatorState
  import opened CodecProofs

  // ---------- Varints ----------

  lemma UInt32SizeExact(v: nat)
    requires v < TWO_32
    ensures |WriteVarint(v)| == UInt32Size(v)
  {
    if v >= 0x80 {
      var v1 := v / 128;
      if v1 >= 0x80 {
        var v2 := v1 / 128;
        if v2 >= 0x80 {
          var v3 := v2 / 128;
          if v3 >= 0x80 {
            assert v3 / 128 < 0x80;
          }
        }
      }
    }
  }

  lemma {:induction false} VarintAtLeast(v: nat, n: nat)
    requires v >= Pow128(n)
    ensures |WriteVarint(v)| > n
  {
    if n > 0 {
      assert Pow128(n) >= 128 by {
        assert Pow128(n - 1) >= 1 by { Pow128Positive(n - 1); }
      }
      VarintAtLeast(v / 128, n - 1);
    }
  }

  lemma Pow128Positive(n: nat)
    ensures Pow128(n) >= 1
  {
  }

  lemma Int32SizeExact(i: int32)
    ensures |WriteInt32(i)| == Int32Size(i)
  {
    if i >= 0 {
      UInt32SizeExact(i);
    } else {
      Int32Bytes(i);
      assert TWO_64 - TWO_31 >= Pow128(9) by {
        Uint64FitsTenBytes();
        assert Pow128(9) == 128 * (128 * (128 * (128 * Pow128(5))));
        assert Pow128(5) == 128 * (128 * (128 * (128 * 128)));
      }
      VarintAtLeast(SignExtend(i), 9);
    }
  }

  lemma {:induction false} UInt64SizeExact(v: nat)
    ensures |WriteVarint(v)| == UInt64Size(v)
  {
    if v >= 128 {
      UInt64SizeExact(v / 128);
    }
  }

  // ---------- Fields ----------

  lemma TaggedSizeExact(tag: nat, i: int32)
    requires tag < TWO_32
    ensures |WriteTagged(tag, i)| == TaggedSize(tag, i)
  {
    UInt32SizeExact(tag);
    Int32SizeExact(i);
  }

  lemma {:induction false} IntsSizeExact(xs: seq<int32>)
    ensures |WriteInts(xs)| == IntsDataSize(xs) + |xs|
  {
    if xs != [] {
      TaggedSizeExact(VT_TAG, xs[0]);
      IntsSizeExact(xs[1..]);
    }
  }

  lemma EntrySizeExact(tag: nat, k: int32, v: int32)
    requires tag < TWO_32
    ensures |WriteEntry(tag, k, v)| == EntrySize(tag, k, v)
  {
    EntryBodySize(k, v);
    TaggedSizeExact(KEY_TAG, k);
    TaggedSizeExact(VALUE_TAG, v);
    UInt32SizeExact(tag);
    UInt32SizeExact(|EntryBody(k, v)|);
  }

  lemma {:induction false} CountsSizeExact(tag: nat, c: Counts, order: seq<int32>)
    requires tag < TWO_32 && forall k <- order :: k in c
    ensures |WriteCounts(tag, c, order)| == CountsSize(tag, c, order)
  {
    if order != [] {
      EntrySizeExact(tag, order[0], c[order[0]]);
      CountsSizeExact(tag, c, order[1..]);
    }
  }

  lemma {:induction false} PayloadsSizeExact(tag: nat, ps: seq<Payload>)
    requires forall p <- ps :: IsTagOf(tag, p)
    ensures |WritePayloads(tag, ps)| == PayloadsSize(tag, ps)
  {
    if ps != [] {
      assert IsTagOf(tag, ps[0]);
      UInt32SizeExact(tag);
      match ps[0] {
        case Varint(v) => UInt64SizeExact(v);
        case Delimited(b) => UInt32SizeExact(|b|);
        case _ =>
      }
      PayloadsSizeExact(tag, ps[1..]);
    }
  }

  /** Every unknown field carries a payload its tag allows. */
  ghost predicate WellTagged(u: UnknownFields) {
    forall tag <- u, p <- u[tag] :: IsTagOf(tag, p)
  }

  lemma {:induction false} UnknownSizeExact(u: UnknownFields, order: seq<nat>)
    requires WellTagged(u) && forall tag <- order :: tag in u
    ensures |WriteUnknown(u, order)| == UnknownSize(u, order)
  {
    if order != [] {
      PayloadsSizeExact(order[0], u[order[0]]);
      UnknownSizeExact(u, order[1..]);
    }
  }

  // ---------- Iteration order ----------

  ghost function Sum<K>(order: seq<K>, f: K -> nat): nat {
    if order == [] then 0 else f(order[0]) + Sum(order[1..], f)
  }

  lemma {:induction false} SumWithout<K>(order: seq<K>, i: nat, f: K -> nat)
    requires i < |order|
    ensures Sum(order, f) == f(order[i]) + Sum(order[..i] + order[i + 1..], f)
  {
    if i == 0 {
      assert order[..0] + order[1..] == order[1..];
    } else {
      SumWithout(order[1..], i - 1, f);
      var without := order[..i] + order[i + 1..];
      assert without[1..] == order[1..][..i - 1] + order[1..][i..];
    }
  }

  /** A sum over all keys does not depend on the order they are visited in. */
  lemma {:induction false} SumAnyOrder<K(!new)>(o1: seq<K>, o2: seq<K>, keys: set<K>, f: K -> nat)
    requires Enumerates(o1, keys) && Enumerates(o2, keys)
    ensures Sum(o1, f) == Sum(o2, f)
    decreases |o1|
  {
    if o1 == [] {
      assert |o2| == |keys| == |o1|;
    } else {
      var k := o1[0];
      assert k in o2;
      var i :| 0 <= i < |o2| && o2[i] == k;
      SumWithout(o2, i, f);
      var rest := o2[..i] + o2[i + 1..];
      TailEnumerates(o1, keys, 0);
      TailEnumerates(o2, keys, i);
      assert o1[..0] + o1[1..] == o1[1..];
      SumAnyOrder(o1[1..], rest, keys - {k}, f);
    }
  }

  lemma TailEnumerates<K(!new)>(order: seq<K>, keys: set<K>, i: nat)
    requires Enumerates(order, keys) && i < |order|
    ensures Enumerates(order[..i] + order[i + 1..], keys - {order[i]})
  {
    var rest := order[..i] + order[i + 1..];
    assert order[i] in keys;
    forall k
      ensures k in rest <==> k in keys - {order[i]}
    {
      if k in rest {
        var j :| 0 <= j < |rest| && rest[j] == k;
        assert k == order[if j < i then j else j + 1];
      }
      if k in keys - {order[i]} {
        assert k in order;
        var j :| 0 <= j < |order| && order[j] == k;
        assert k == rest[if j < i then j else j - 1];
      }
    }
  }

  lemma {:induction false} CountsSizeIsSum(tag: nat, c: Counts, order: seq<int32>, f: int32 -> nat)
    requires forall k <- order :: k in c && f(k) == EntrySize(tag, k, c[k])
    ensures CountsSize(tag, c, order) == Sum(order, f)
  {
    if order != [] {
      CountsSizeIsSum(tag, c, order[1..], f);
    }
  }

  lemma {:induction false} UnknownSizeIsSum(u: UnknownFields, order: seq<nat>, f: nat -> nat)
    requires forall tag <- order :: tag in u && f(tag) == PayloadsSize(tag, u[tag])
    ensures UnknownSize(u, order) == Sum(order, f)
  {
    if order != [] {
      UnknownSizeIsSum(u, order[1..], f);
    }
  }

  lemma CountsSizeAnyOrder(tag: nat, c: Counts, o1: seq<int32>, o2: seq<int32>)
    requires Enumerates(o1, c.Keys) && Enumerates(o2, c.Keys)
    ensures CountsSize(tag, c, o1) == CountsSize(tag, c, o2)
  {
    var f: int32 -> nat := k => if k in c then EntrySize(tag, k, c[k]) else 0;
    CountsSizeIsSum(tag, c, o1, f);
    CountsSizeIsSum(tag, c, o2, f);
    SumAnyOrder(o1, o2, c.Keys, f);
  }

  lemma UnknownSizeAnyOrder(u: UnknownFields, o1: seq<nat>, o2: seq<nat>)
    requires Enumerates(o1, u.Keys) && Enumerates(o2, u.Keys)
    ensures UnknownSize(u, o1) == UnknownSize(u, o2)
  {
    var f: nat -> nat := tag => if tag in u then PayloadsSize(tag, u[tag]) else 0;
    UnknownSizeIsSum(u, o1, f);
    UnknownSizeIsSum(u, o2, f);
    SumAnyOrder(o1, o2, u.Keys, f);
  }

  lemma ScalarSizeExact(tag: nat, o: Option<int32>)
    requires tag < TWO_32
    ensures |WriteScalar(tag, o)| == ScalarSize(tag, o)
  {
    if o.Some? { TaggedSizeExact(tag, o.value); }
  }

  lemma AllCountsSizeExact(tag: nat, c: Counts, written: seq<int32>, sized: seq<int32>)
    requires tag < TWO_32 && Enumerates(written, c.Keys) && Enumerates(sized, c.Keys)
    ensures |WriteCounts(tag, c, written)| == CountsSize(tag, c, sized)
  {
    CountsSizeExact(tag, c, written);
    CountsSizeAnyOrder(tag, c, written, sized);
  }

  lemma AllUnknownSizeExact(u: UnknownFields, written: seq<nat>, sized: seq<nat>)
    requires WellTagged(u) && Enumerates(written, u.Keys) && Enumerates(sized, u.Keys)
    ensures |WriteUnknown(u, written)| == UnknownSize(u, sized)
  {
    UnknownSizeExact(u, written);
    UnknownSizeAnyOrder(u, written, sized);
  }

  /** The size announced in one iteration order is the number of bytes written in any other. */
  lemma SizeIsExact(m: Message, written: Order, sized: Order)
    requires WellTagged(m.unknown) && written.For(m) && sized.For(m)
    ensures Size(m, sized) == |Write(m, written)|
  {
    ScalarSizeExact(SCALAR_TAG, m.scalar);
    IntsSizeExact(m.vt);
    AllCountsSizeExact(INPUT_TAG, m.inputs, written.inputs, sized.inputs);
    AllCountsSizeExact(OUTPUT_TAG, m.outputs, written.outputs, sized.outputs);
    ScalarSizeExact(TYPE_TAG, m.opType);
    ScalarSizeExact(ID_TAG, m.id);
    AllUnknownSizeExact(m.unknown, written.unknown, sized.unknown);
  }
}
