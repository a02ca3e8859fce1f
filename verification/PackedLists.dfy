/**
 Field 2 may arrive as single elements, as packed blocks, or as any mixture of
 the two, with other fields in between.
 */
module PackedLists {
  import opened Basics
  import opened Wire
  import opened OperatorState
  import opened CodecProofs

  datatype Chunk =
    | Single(i: int32)
    | Block(xs: seq<int32>)
    | Other(bs: bytes)

  function PackedData(xs: seq<int32>): bytes {
    if xs == [] then [] else WriteInt32(xs[0]) + PackedData(xs[1..])
  }

  function WriteChunk(c: Chunk): bytes {
    match c
    case Single(i) => WriteTagged(VT_TAG, i)
    case Block(xs) => WriteRecord(VT_PACKED_TAG, Delimited(PackedData(xs)))
    case Other(bs) => bs
  }

  function WriteChunks(cs: seq<Chunk>): bytes {
    if cs == [] then [] else WriteChunk(cs[0]) + WriteChunks(cs[1..])
  }

  function Elements(cs: seq<Chunk>): seq<int32> {
    if cs == [] then []
    else
      (match cs[0]
       case Single(i) => [i]
       case Block(xs) => xs
       case Other(_) => []) + Elements(cs[1..])
  }

  function OtherBytes(cs: seq<Chunk>): bytes {
    if cs == [] then []
    else (if cs[0].Other? then cs[0].bs else []) + OtherBytes(cs[1..])
  }

  /** The bytes, the elements and the other fields of a mixture, one chunk after the other. */
  lemma ChunkSays(i: int32, xs: seq<int32>, bs: bytes)
    ensures WriteChunk(Single(i)) == [16] + WriteInt32(i)
    ensures WriteChunk(Block(xs)) == [18] + (WriteVarint(|PackedData(xs)|) + PackedData(xs))
    ensures WriteChunk(Other(bs)) == bs
    ensures PackedData([]) == [] && (xs != [] ==> PackedData(xs) == WriteInt32(xs[0]) + PackedData(xs[1..]))
  {
    assert WriteVarint(16) == [16] && WriteVarint(18) == [18];
  }

  lemma MixtureSays(c: Chunk, cs: seq<Chunk>)
    ensures WriteChunks([]) == [] && WriteChunks([c] + cs) == WriteChunk(c) + WriteChunks(cs)
    ensures Elements([]) == []
    ensures Elements([c] + cs) == (if c.Single? then [c.i] else if c.Block? then c.xs else []) + Elements(cs)
    ensures OtherBytes([]) == []
    ensures OtherBytes([c] + cs) == (if c.Other? then c.bs else []) + OtherBytes(cs)
  {
    assert ([c] + cs)[1..] == cs;
  }

  /** Which chunks are excluded: blocks of two gigabytes, and other bytes that do not parse or hold field 2. */
  lemma AdmissibleIff(s: Schema, c: Chunk)
    ensures Admissible(s, c) <==>
              && (c.Block? ==> |PackedData(c.xs)| < 0x8000_0000)
              && (c.Other? ==> exists m {:trigger m.vt} :: Parse(s, c.bs) == Some(m) && m.vt == [])
  {
    if c.Other? && Parse(s, c.bs).Some? {
      var m := Parse(s, c.bs).value;
      assert Parse(s, c.bs) == Some(m) && m.vt == m.vt;
    }
  }

  /** A block fits a length prefix; bytes of other fields parse and hold no field 2. */
  ghost predicate Admissible(s: Schema, c: Chunk) {
    match c
    case Single(_) => true
    case Block(xs) => |PackedData(xs)| < TWO_31
    case Other(bs) => Parse(s, bs).Some? && Parse(s, bs).value.vt == []
  }

  lemma {:induction false} ReadPackedData(xs: seq<int32>)
    ensures ReadInts(PackedData(xs)) == Some(xs)
  {
    if xs != [] {
      var w, rest := WriteInt32(xs[0]), PackedData(xs[1..]);
      ReadWrittenInt32(xs[0], rest);
      assert (w + rest)[|w|..] == rest;
      ReadPackedData(xs[1..]);
      assert [xs[0]] + xs[1..] == xs;
    }
  }

  lemma ParseBlock(s: Schema, xs: seq<int32>)
    requires |PackedData(xs)| < TWO_31
    ensures Parse(s, WriteChunk(Block(xs))) == Some(DEFAULT.(vt := xs))
  {
    ReadPackedData(xs);
    ParseRecord(s, VT_PACKED_TAG, Delimited(PackedData(xs)));
    assert [] + xs == xs;
  }

  lemma MergeVt(x: Message, y: Message, xs: seq<int32>)
    ensures Merge(x.(vt := xs), y) == Merge(x, y).(vt := xs + y.vt)
  {
  }

  /** Decoding a mixture gives the elements in order, next to what the other fields give on their own. */
  lemma {:induction false} MixtureDecodes(s: Schema, cs: seq<Chunk>)
    requires forall c <- cs :: Admissible(s, c)
    ensures Parse(s, OtherBytes(cs)).Some?
    ensures Parse(s, OtherBytes(cs)).value.vt == []
    ensures Parse(s, WriteChunks(cs)) == Some(Parse(s, OtherBytes(cs)).value.(vt := Elements(cs)))
  {
    if cs == [] {
    } else {
      var tail := cs[1..];
      assert Admissible(s, cs[0]);
      MixtureDecodes(s, tail);
      var rest := Parse(s, OtherBytes(tail)).value;
      var decoded := rest.(vt := Elements(tail));
      match cs[0] {
        case Single(i) =>
          ParseTagged(s, VT_TAG, i);
          ParseBoth(s, WriteChunk(cs[0]), DEFAULT.(vt := [i]), WriteChunks(tail), decoded);
          MergeVt(DEFAULT, decoded, [i]);
          MergeIdentity(decoded);
          assert OtherBytes(cs) == OtherBytes(tail);
        case Block(xs) =>
          ParseBlock(s, xs);
          ParseBoth(s, WriteChunk(cs[0]), DEFAULT.(vt := xs), WriteChunks(tail), decoded);
          MergeVt(DEFAULT, decoded, xs);
          MergeIdentity(decoded);
          assert OtherBytes(cs) == OtherBytes(tail);
        case Other(bs) =>
          var x := Parse(s, bs).value;
          ParseBoth(s, bs, x, WriteChunks(tail), decoded);
          ParseBoth(s, bs, x, OtherBytes(tail), rest);
          assert x.(vt := []) == x;
          MergeVt(x, decoded, []);
          assert Merge(x, decoded) == Merge(x, rest).(vt := [] + Elements(tail));
          assert Elements(cs) == [] + Elements(tail);
      }
    }
  }
}
