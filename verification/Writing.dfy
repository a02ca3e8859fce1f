/**
 writeTo and getSerializedSize as they run: loops over the list and over the
 entry sets of the maps, in whatever order those are iterated.
 */
module Writing {
  import opened Basics
  import opened Wire
  import opened OperatorState
  import opened CodecProofs
  import opened CodecSizes

  // ---------- Appending at the end of an iteration order ----------

  lemma Associative(a: bytes, b: bytes, c: bytes)
    ensures a + (b + c) == a + b + c
  {
  }

  lemma {:induction false} WriteCountsAppend(tag: nat, c: Counts, order: seq<int32>, k: int32)
    requires k in c && forall k <- order :: k in c
    ensures WriteCounts(tag, c, order + [k]) == WriteCounts(tag, c, order) + WriteEntry(tag, k, c[k])
  {
    if order != [] {
      WriteCountsAppend(tag, c, order[1..], k);
      assert (order + [k])[1..] == order[1..] + [k];
      Associative(WriteEntry(tag, order[0], c[order[0]]), WriteCounts(tag, c, order[1..]), WriteEntry(tag, k, c[k]));
    }
  }

  lemma {:induction false} CountsSizeAppend(tag: nat, c: Counts, order: seq<int32>, k: int32)
    requires k in c && forall k <- order :: k in c
    ensures CountsSize(tag, c, order + [k]) == CountsSize(tag, c, order) + EntrySize(tag, k, c[k])
  {
    if order != [] {
      CountsSizeAppend(tag, c, order[1..], k);
      assert (order + [k])[1..] == order[1..] + [k];
    }
  }

  lemma {:induction false} WriteUnknownAppend(u: UnknownFields, order: seq<nat>, tag: nat)
    requires tag in u && forall tag <- order :: tag in u
    ensures WriteUnknown(u, order + [tag]) == WriteUnknown(u, order) + WritePayloads(tag, u[tag])
  {
    if order != [] {
      WriteUnknownAppend(u, order[1..], tag);
      assert (order + [tag])[1..] == order[1..] + [tag];
      Associative(WritePayloads(order[0], u[order[0]]), WriteUnknown(u, order[1..]), WritePayloads(tag, u[tag]));
    }
  }

  lemma {:induction false} UnknownSizeAppend(u: UnknownFields, order: seq<nat>, tag: nat)
    requires tag in u && forall tag <- order :: tag in u
    ensures UnknownSize(u, order + [tag]) == UnknownSize(u, order) + PayloadsSize(tag, u[tag])
  {
    if order != [] {
      UnknownSizeAppend(u, order[1..], tag);
      assert (order + [tag])[1..] == order[1..] + [tag];
    }
  }

  /** `order` has visited exactly the keys that are not left. */
  ghost predicate Visited<K(!new)>(order: seq<K>, keys: set<K>, left: set<K>) {
    left <= keys && Enumerates(order, keys - left)
  }

  lemma VisitOne<K(!new)>(order: seq<K>, keys: set<K>, left: set<K>, k: K)
    requires Visited(order, keys, left) && k in left
    ensures Visited(order + [k], keys, left - {k})
  {
    assert keys - (left - {k}) == (keys - left) + {k};
  }

  // ---------- The loops ----------

  /** serializeIntegerMapTo */
  method SerializeMapTo(tag: nat, c: Counts) returns (out: bytes, order: seq<int32>)
    ensures Enumerates(order, c.Keys) && out == WriteCounts(tag, c, order)
  {
    out, order := [], [];
    var left := c.Keys;
    while left != {}
      invariant Visited(order, c.Keys, left)
      invariant out == WriteCounts(tag, c, order)
    {
      var k :| k in left;
      WriteCountsAppend(tag, c, order, k);
      VisitOne(order, c.Keys, left, k);
      out, order, left := out + WriteEntry(tag, k, c[k]), order + [k], left - {k};
    }
  }

  method SizeOfMap(tag: nat, c: Counts) returns (size: nat, order: seq<int32>)
    ensures Enumerates(order, c.Keys) && size == CountsSize(tag, c, order)
  {
    size, order := 0, [];
    var left := c.Keys;
    while left != {}
      invariant Visited(order, c.Keys, left)
      invariant size == CountsSize(tag, c, order)
    {
      var k :| k in left;
      CountsSizeAppend(tag, c, order, k);
      VisitOne(order, c.Keys, left, k);
      size, order, left := size + EntrySize(tag, k, c[k]), order + [k], left - {k};
    }
  }

  method SerializeUnknownTo(u: UnknownFields) returns (out: bytes, order: seq<nat>)
    ensures Enumerates(order, u.Keys) && out == WriteUnknown(u, order)
  {
    out, order := [], [];
    var left := u.Keys;
    while left != {}
      invariant Visited(order, u.Keys, left)
      invariant out == WriteUnknown(u, order)
    {
      var tag :| tag in left;
      WriteUnknownAppend(u, order, tag);
      VisitOne(order, u.Keys, left, tag);
      out, order, left := out + WritePayloads(tag, u[tag]), order + [tag], left - {tag};
    }
  }

  method SizeOfUnknown(u: UnknownFields) returns (size: nat, order: seq<nat>)
    ensures Enumerates(order, u.Keys) && size == UnknownSize(u, order)
  {
    size, order := 0, [];
    var left := u.Keys;
    while left != {}
      invariant Visited(order, u.Keys, left)
      invariant size == UnknownSize(u, order)
    {
      var tag :| tag in left;
      UnknownSizeAppend(u, order, tag);
      VisitOne(order, u.Keys, left, tag);
      size, order, left := size + PayloadsSize(tag, u[tag]), order + [tag], left - {tag};
    }
  }

  method WriteListTo(xs: seq<int32>) returns (out: bytes)
    ensures out == WriteInts(xs)
  {
    out := [];
    for i := 0 to |xs|
      invariant out + WriteInts(xs[i..]) == WriteInts(xs)
    {
      assert xs[i..][1..] == xs[i + 1..];
      out := out + WriteTagged(VT_TAG, xs[i]);
    }
    assert out + [] == out;
  }

  method DataSizeOfList(xs: seq<int32>) returns (size: nat)
    ensures size == IntsDataSize(xs)
  {
    size := 0;
    for i := 0 to |xs|
      invariant size + IntsDataSize(xs[i..]) == IntsDataSize(xs)
    {
      assert xs[i..][1..] == xs[i + 1..];
      size := size + Int32Size(xs[i]);
    }
  }

  /** writeTo: every message type reads back what it wrote. */
  method WriteTo(m: Message) returns (out: bytes, o: Order)
    ensures o.For(m) && out == Write(m, o)
    ensures forall s: Schema {:trigger Canonical(s, m)} :: Canonical(s, m) ==> Parse(s, out) == Some(m)
  {
    out := WriteScalar(SCALAR_TAG, m.scalar);
    var list := WriteListTo(m.vt);
    var ins, inOrder := SerializeMapTo(INPUT_TAG, m.inputs);
    var outs, outOrder := SerializeMapTo(OUTPUT_TAG, m.outputs);
    var unknown, tags := SerializeUnknownTo(m.unknown);
    o := Order(inOrder, outOrder, tags);
    out := out + list + ins + outs + WriteScalar(TYPE_TAG, m.opType) + WriteScalar(ID_TAG, m.id) + unknown;
    forall s: Schema {:trigger Canonical(s, m)} | Canonical(s, m)
      ensures Parse(s, out) == Some(m)
    {
      RoundTrip(s, m, o);
    }
  }

  /** The sum that getSerializedSize adds up: the length of whatever writeTo writes. */
  method SumOfSizes(m: Message) returns (size: nat)
    requires WellTagged(m.unknown)
    ensures forall o: Order {:trigger o.For(m)} :: o.For(m) ==> size == |Write(m, o)|
  {
    var dataSize := DataSizeOfList(m.vt);
    var ins, inOrder := SizeOfMap(INPUT_TAG, m.inputs);
    var outs, outOrder := SizeOfMap(OUTPUT_TAG, m.outputs);
    var unknown, tags := SizeOfUnknown(m.unknown);
    size := ScalarSize(SCALAR_TAG, m.scalar) + (dataSize + 1 * |m.vt|) + ins + outs
            + ScalarSize(TYPE_TAG, m.opType) + ScalarSize(ID_TAG, m.id) + unknown;
    forall o: Order {:trigger o.For(m)} | o.For(m)
      ensures size == |Write(m, o)|
    {
      SizeIsExact(m, o, Order(inOrder, outOrder, tags));
    }
  }

  /** A built message with its memo. */
  class SizedMessage {
    const message: Message
    var memoizedSize: int32

    ghost predicate IsSize(size: int32) {
      forall o: Order {:trigger o.For(message)} :: o.For(message) ==> size == ToInt32(|Write(message, o)|)
    }

    ghost predicate Valid()
      reads this
    {
      WellTagged(message.unknown) && (memoizedSize == -1 || IsSize(memoizedSize))
    }

    constructor (message: Message)
      requires WellTagged(message.unknown)
      ensures Valid() && this.message == message
    {
      this.message, memoizedSize := message, -1;
    }

    /** getSerializedSize: computed once; int additions wrap around, so the result is the length modulo 2^32. */
    method GetSerializedSize() returns (size: int32)
      requires Valid()
      modifies this
      ensures Valid() && memoizedSize == size
      ensures forall o: Order {:trigger o.For(message)} :: o.For(message) ==> size == ToInt32(|Write(message, o)|)
    {
      size := memoizedSize;
      if size != -1 {
        return size;
      }
      var sum := SumOfSizes(message);
      size := ToInt32(sum);
      memoizedSize := size;
    }
  }
}
