/**
 The parsing constructor as it runs: a loop over tags on a CodedInputStream
 whose limit is pushed and popped around length-delimited fields.  Its result
 is the Parse of the input.
 */
module Parsing {
  import opened Basics
  import opened Wire
  import opened OperatorState

  /** Position and current limit in a byte array; None stands for a thrown exception. */
  class CodedInput {
    const buf: bytes
    var pos: nat
    var limit: nat

    constructor (buf: bytes)
      ensures Valid() && Rest() == buf && this.buf == buf && limit == |buf|
    {
      this.buf, pos, limit := buf, 0, |buf|;
    }

    predicate Valid()
      reads this
    {
      pos <= limit <= |buf|
    }

    function Rest(): bytes
      requires Valid()
      reads this
    {
      buf[pos..limit]
    }

    /** `n` bytes after a point where the position was `from` and `unread` was left, inside the same limit. */
    ghost predicate Advanced(from: nat, unread: bytes, n: nat)
      reads this
    {
      Valid() && pos == from + n && n <= |unread| && Rest() == unread[n..]
    }

    method ReadVarint() returns (r: Option<nat>)
      requires Valid()
      modifies this`pos
      ensures Valid()
      ensures var w := Wire.ReadVarint(old(Rest()));
              if w.Got? then r == Some(w.value) && Advanced(old(pos), old(Rest()), w.size) else r == None
    {
      match Wire.ReadVarint(Rest())
      case Malformed =>
        r := None;
      case Got(v, n) =>
        r := Some(v);
        pos := pos + n;
    }

    /** readTag: 0 at the limit, an exception for field number 0. */
    method ReadTag() returns (r: Option<nat>)
      requires Valid()
      modifies this`pos
      ensures Valid()
      ensures old(Rest()) == [] ==> r == Some(0) && Advanced(old(pos), old(Rest()), 0)
      ensures old(Rest()) != [] ==>
                var w := Wire.ReadVarint(old(Rest()));
                if w.Got? && w.value % TWO_32 >= 8
                then r == Some(w.value % TWO_32) && Advanced(old(pos), old(Rest()), w.size)
                else r == None
    {
      if pos == limit {
        assert Rest() == [];
        assert Rest()[0..] == [];
        r := Some(0);
      } else {
        var v := ReadVarint();
        if v.None? || v.value % TWO_32 < 8 {
          r := None;
        } else {
          r := Some(v.value % TWO_32);
        }
      }
    }

    method ReadInt32() returns (r: Option<int32>)
      requires Valid()
      modifies this`pos
      ensures Valid()
      ensures var w := Wire.ReadInt32(old(Rest()));
              if w.Got? then r == Some(w.value) && Advanced(old(pos), old(Rest()), w.size) else r == None
    {
      var v := ReadVarint();
      r := if v.None? then None else Some(ToInt32(v.value));
    }

    /** pushLimit: returns the outer limit, refuses negative lengths and lengths beyond it. */
    method PushLimit(len: int) returns (r: Option<nat>)
      requires Valid()
      modifies this`limit
      ensures Valid()
      ensures r == if 0 <= len <= |old(Rest())| then Some(old(limit)) else None
      ensures r.Some? ==> limit == pos + len && Rest() == old(Rest())[..len]
    {
      if 0 <= len <= limit - pos {
        r := Some(limit);
        limit := pos + len;
      } else {
        r := None;
      }
    }

    method PopLimit(outer: nat)
      requires Valid() && limit <= outer <= |buf|
      modifies this`limit
      ensures Valid() && limit == outer
    {
      limit := outer;
    }

    method ReadPayload(wireType: nat) returns (r: Option<Payload>)
      requires Valid()
      modifies this`pos
      ensures Valid()
      ensures var w := Wire.ReadPayload(wireType, old(Rest()));
              if w.Got? then r == Some(w.value) && Advanced(old(pos), old(Rest()), w.size) else r == None
    {
      match Wire.ReadPayload(wireType, Rest())
      case Malformed =>
        r := None;
      case Got(p, n) =>
        r := Some(p);
        pos := pos + n;
    }
  }

  // ---------- Lemmas about one field ----------

  lemma Int32OfPayload(bs: bytes)
    ensures var w := ReadPayload(0, bs);
            ReadInt32(bs) == if w.Got? then Got(ToInt32(w.value.v), w.size) else Malformed
  {
    var r := ReadVarint(bs);
    if r.Got? {
      var v := r.value;
      assert TWO_64 == TWO_32 * TWO_32;
      assert v == v % TWO_64 + (v / TWO_64) * TWO_32 * TWO_32;
      LowBits(v % TWO_64, (v / TWO_64) * TWO_32);
    }
  }

  lemma LowBits(low: nat, k: nat)
    ensures (low + k * TWO_32) % TWO_32 == low % TWO_32
  {
  }

  /** What is left of ParseFrom once a tag has been read. */
  function AfterTag(s: Schema, m: Message, tag: nat, bs: bytes): Option<Message>
    requires 8 <= tag < TWO_32
  {
    match ReadPayload(tag % 8, bs)
    case Malformed => None
    case Got(p, n) =>
      match Apply(s, m, Record(tag, p))
      case None => None
      case Some(m') => ParseFrom(s, m', bs[n..])
  }

  /** What is left of ParseFrom once a record has been read. */
  lemma ParseOneRecord(s: Schema, m: Message, bs: bytes)
    requires bs != []
    ensures var r := ReadRecord(bs);
            ParseFrom(s, m, bs) == if r.Got? then ParseRest(s, Apply(s, m, r.value), bs[r.size..]) else None
  {
  }

  function ParseRest(s: Schema, m: Option<Message>, rest: bytes): Option<Message> {
    if m.None? then None else ParseFrom(s, m.value, rest)
  }

  lemma ParseOneTag(s: Schema, m: Message, bs: bytes)
    requires bs != []
    ensures var w := ReadVarint(bs);
            ParseFrom(s, m, bs) ==
              if w.Got? && w.value % TWO_32 >= 8 then AfterTag(s, m, w.value % TWO_32, bs[w.size..]) else None
  {
    ParseOneRecord(s, m, bs);
    var w := ReadVarint(bs);
    if w.Got? && w.value % TWO_32 >= 8 {
      RecordOfTag(bs);
      var tag := w.value % TWO_32;
      var p := ReadPayload(tag % 8, bs[w.size..]);
      assert ParseFrom(s, m, bs) == AfterTag(s, m, tag, bs[w.size..]) by {
        if p.Got? {
          RestOfRest(bs, w.size, p.size);
        }
      }
    }
  }

  lemma DelimitedOfPayload(bs: bytes)
    ensures var w := ReadVarint(bs);
            ReadPayload(2, bs) ==
              if w.Got? && 0 <= ToInt32(w.value) <= |bs[w.size..]|
              then Got(Delimited(bs[w.size..][..ToInt32(w.value)]), w.size + ToInt32(w.value))
              else Malformed
  {
    var r := ReadVarint(bs);
    if r.Got? {
      var len := ToInt32(r.value);
      if 0 <= len <= |bs| - r.size {
        assert bs[r.size..][..len] == bs[r.size..r.size + len];
      }
    }
  }

  /** A record with a given tag, read in two steps. */
  lemma RecordOfTag(bs: bytes)
    requires ReadVarint(bs).Got? && ReadVarint(bs).value % TWO_32 >= 8
    ensures var t := ReadVarint(bs);
            var tag := t.value % TWO_32;
            var p := ReadPayload(tag % 8, bs[t.size..]);
            ReadRecord(bs) == if p.Got? then Got(Record(tag, p.value), t.size + p.size) else Malformed
  {
  }

  lemma RestOfRest(bs: bytes, m: nat, n: nat)
    requires m + n <= |bs|
    ensures bs[m..][n..] == bs[m + n..]
  {
  }

  /** What is left of ReadEntry once a record has been read. */
  function EntryAfterRecord(tag: nat, p: Payload, rest: bytes, key: int32, value: int32): Option<(int32, int32)>
    requires IsTagOf(tag, p)
  {
    ReadEntry(rest, if tag == KEY_TAG then ToInt32(p.v) else key, if tag == VALUE_TAG then ToInt32(p.v) else value)
  }

  function EntryAfterTag(tag: nat, bs: bytes, key: int32, value: int32): Option<(int32, int32)>
    requires 8 <= tag < TWO_32
  {
    match ReadPayload(tag % 8, bs)
    case Malformed => None
    case Got(p, n) => EntryAfterRecord(tag, p, bs[n..], key, value)
  }

  lemma EntryOneRecord(bs: bytes, key: int32, value: int32)
    requires bs != []
    ensures var r := ReadRecord(bs);
            ReadEntry(bs, key, value) ==
              if r.Got? then EntryAfterRecord(r.value.tag, r.value.payload, bs[r.size..], key, value) else None
  {
  }

  lemma EntryOneTag(bs: bytes, key: int32, value: int32)
    requires bs != []
    ensures var w := ReadVarint(bs);
            ReadEntry(bs, key, value) ==
              if w.Got? && w.value % TWO_32 >= 8 then EntryAfterTag(w.value % TWO_32, bs[w.size..], key, value) else None
  {
    EntryOneRecord(bs, key, value);
    var w := ReadVarint(bs);
    if w.Got? && w.value % TWO_32 >= 8 {
      RecordOfTag(bs);
      var tag := w.value % TWO_32;
      var p := ReadPayload(tag % 8, bs[w.size..]);
      if p.Got? {
        RestOfRest(bs, w.size, p.size);
      }
    }
  }

  // ---------- The loops ----------

  function AppendInts(xs: seq<int32>, ys: Option<seq<int32>>): Option<seq<int32>> {
    if ys.None? then None else Some(xs + ys.value)
  }

  /** Reads a length and confines the input to that many bytes; returns the outer limit. */
  method EnterDelimited(input: CodedInput) returns (outer: Option<nat>)
    requires input.Valid()
    modifies input
    ensures input.Valid()
    ensures var w := Wire.ReadPayload(2, old(input.Rest()));
            if w.Got?
            then && outer == Some(old(input.limit))
                 && input.Rest() == w.value.b
                 && input.limit == old(input.pos) + w.size <= old(input.limit)
            else outer == None
  {
    DelimitedOfPayload(input.Rest());
    var length := input.ReadVarint();
    if length.None? {
      return None;
    }
    outer := input.PushLimit(ToInt32(length.value));
  }

  method ReadIntsToLimit(input: CodedInput) returns (r: Option<seq<int32>>)
    requires input.Valid()
    modifies input`pos
    ensures input.Valid() && r == ReadInts(old(input.Rest()))
    ensures r.Some? ==> input.pos == input.limit
  {
    ghost var block := input.Rest();
    var xs := [];
    assert AppendInts([], ReadInts(block)) == ReadInts(block) by {
      var ys := ReadInts(block);
      assert ys.Some? ==> [] + ys.value == ys.value;
    }
    while input.pos < input.limit
      invariant input.Valid()
      invariant ReadInts(block) == AppendInts(xs, ReadInts(input.Rest()))
    {
      var i := input.ReadInt32();
      if i.None? {
        return None;
      }
      ghost var more := ReadInts(input.Rest());
      assert more.Some? ==> xs + ([i.value] + more.value) == (xs + [i.value]) + more.value;
      xs := xs + [i.value];
    }
    assert input.Rest() == [];
    assert xs + [] == xs;
    r := Some(xs);
  }

  /** case 18: a packed block; afterwards the outer limit is back in force. */
  method ReadPackedBlock(input: CodedInput) returns (r: Option<seq<int32>>)
    requires input.Valid()
    modifies input
    ensures input.Valid()
    ensures var w := Wire.ReadPayload(2, old(input.Rest()));
            r == if w.Got? then ReadInts(w.value.b) else None
    ensures r.Some? ==>
              && input.limit == old(input.limit)
              && input.Advanced(old(input.pos), old(input.Rest()), Wire.ReadPayload(2, old(input.Rest())).size)
  {
    var outer := EnterDelimited(input);
    if outer.None? {
      return None;
    }
    r := ReadIntsToLimit(input);
    input.PopLimit(outer.value);
  }

  /** One field of a map entry after its tag: key, value, or skipped. */
  method ReadEntryField(input: CodedInput, tag: nat, key: int32, value: int32) returns (r: Option<(int32, int32)>)
    requires input.Valid() && 8 <= tag < TWO_32
    modifies input`pos
    ensures input.Valid() && (r.Some? ==> input.pos >= old(input.pos))
    ensures EntryAfterTag(tag, old(input.Rest()), key, value) ==
            if r.Some? then ReadEntry(input.Rest(), r.value.0, r.value.1) else None
  {
    if tag == KEY_TAG {
      Int32OfPayload(input.Rest());
      var i := input.ReadInt32();
      r := if i.None? then None else Some((i.value, value));
    } else if tag == VALUE_TAG {
      Int32OfPayload(input.Rest());
      var i := input.ReadInt32();
      r := if i.None? then None else Some((key, i.value));
    } else {
      var skipped := input.ReadPayload(tag % 8);
      r := if skipped.None? then None else Some((key, value));
    }
  }

  method ReadEntryToLimit(input: CodedInput) returns (r: Option<(int32, int32)>)
    requires input.Valid()
    modifies input`pos
    ensures input.Valid() && r == ReadEntry(old(input.Rest()))
    ensures r.Some? ==> input.pos == input.limit
  {
    var key: int32, value: int32 := 0, 0;
    var done := false;
    while !done
      invariant input.Valid()
      invariant ReadEntry(old(input.Rest())) == ReadEntry(input.Rest(), key, value)
      invariant done ==> input.pos == input.limit
      decreases !done, input.limit - input.pos
    {
      if input.Rest() != [] {
        EntryOneTag(input.Rest(), key, value);
      }
      var tag := input.ReadTag();
      if tag.None? {
        return None;
      }
      if tag.value == 0 {
        done := true;
      } else {
        var entry := ReadEntryField(input, tag.value, key, value);
        if entry.None? {
          return None;
        }
        key, value := entry.value.0, entry.value.1;
      }
    }
    assert input.Rest() == [];
    r := Some((key, value));
  }

  /** cases 26 and 34: a map entry, read within its own limit. */
  method ReadMapEntry(input: CodedInput) returns (r: Option<(int32, int32)>)
    requires input.Valid()
    modifies input
    ensures input.Valid()
    ensures var w := Wire.ReadPayload(2, old(input.Rest()));
            r == if w.Got? then ReadEntry(w.value.b) else None
    ensures r.Some? ==>
              && input.limit == old(input.limit)
              && input.Advanced(old(input.pos), old(input.Rest()), Wire.ReadPayload(2, old(input.Rest())).size)
  {
    var outer := EnterDelimited(input);
    if outer.None? {
      return None;
    }
    r := ReadEntryToLimit(input);
    input.PopLimit(outer.value);
  }

  method ParsePackedField(s: Schema, input: CodedInput, m: Message) returns (r: Option<Message>)
    requires input.Valid()
    modifies input
    ensures input.Valid()
    ensures AfterTag(s, m, VT_PACKED_TAG, old(input.Rest())) ==
            if r.Some? then ParseFrom(s, r.value, input.Rest()) else None
    ensures r.Some? ==> input.limit == old(input.limit) && input.pos >= old(input.pos)
  {
    var xs := ReadPackedBlock(input);
    r := if xs.None? then None else Some(m.(vt := m.vt + xs.value));
  }

  method ParseCountsField(s: Schema, input: CodedInput, tag: nat, m: Message) returns (r: Option<Message>)
    requires input.Valid() && s.hasCounts && tag in {INPUT_TAG, OUTPUT_TAG}
    modifies input
    ensures input.Valid()
    ensures AfterTag(s, m, tag, old(input.Rest())) == if r.Some? then ParseFrom(s, r.value, input.Rest()) else None
    ensures r.Some? ==> input.limit == old(input.limit) && input.pos >= old(input.pos)
  {
    var e := ReadMapEntry(input);
    if e.None? {
      r := None;
    } else if tag == INPUT_TAG {
      r := Some(m.(inputs := m.inputs[e.value.0 := e.value.1]));
    } else {
      r := Some(m.(outputs := m.outputs[e.value.0 := e.value.1]));
    }
  }

  method ParseScalarField(s: Schema, input: CodedInput, tag: nat, m: Message) returns (r: Option<Message>)
    requires input.Valid()
    requires Known(s, tag) && tag !in {VT_PACKED_TAG, INPUT_TAG, OUTPUT_TAG}
    modifies input`pos
    ensures input.Valid() && (r.Some? ==> input.pos >= old(input.pos))
    ensures AfterTag(s, m, tag, old(input.Rest())) == if r.Some? then ParseFrom(s, r.value, input.Rest()) else None
  {
    Int32OfPayload(input.Rest());
    var i := input.ReadInt32();
    if i.None? {
      r := None;
    } else if tag == SCALAR_TAG {
      r := Some(m.(scalar := Some(i.value)));
    } else if tag == VT_TAG {
      r := Some(m.(vt := m.vt + [i.value]));
    } else if tag == TYPE_TAG {
      r := Some(m.(opType := Some(i.value)));
    } else {
      r := Some(m.(id := Some(i.value)));
    }
  }

  /** One turn of the parsing loop after a tag other than 0 has been read. */
  method ParseField(s: Schema, input: CodedInput, tag: nat, m: Message) returns (r: Option<Message>)
    requires input.Valid() && 8 <= tag < TWO_32
    modifies input
    ensures input.Valid()
    ensures AfterTag(s, m, tag, old(input.Rest())) == if r.Some? then ParseFrom(s, r.value, input.Rest()) else None
    ensures r.Some? ==> input.limit == old(input.limit) && input.pos >= old(input.pos)
  {
    if tag == VT_PACKED_TAG {
      r := ParsePackedField(s, input, m);
    } else if s.hasCounts && (tag == INPUT_TAG || tag == OUTPUT_TAG) {
      r := ParseCountsField(s, input, tag, m);
    } else if Known(s, tag) {
      r := ParseScalarField(s, input, tag, m);
    } else {
      r := ParseUnknownField(s, input, tag, m);
    }
  }

  method ParseUnknownField(s: Schema, input: CodedInput, tag: nat, m: Message) returns (r: Option<Message>)
    requires input.Valid() && 8 <= tag < TWO_32 && !Known(s, tag)
    modifies input`pos
    ensures input.Valid() && (r.Some? ==> input.pos >= old(input.pos))
    ensures AfterTag(s, m, tag, old(input.Rest())) == if r.Some? then ParseFrom(s, r.value, input.Rest()) else None
  {
    var p := input.ReadPayload(tag % 8);
    r := if p.None? then None
         else Some(m.(unknown := m.unknown[tag := Lookup(m.unknown, tag) + [p.value]]));
  }

  /** The parsing constructor: reads fields until the tag is 0. */
  method ParsePartialFrom(s: Schema, input: CodedInput) returns (r: Option<Message>)
    requires input.Valid()
    modifies input
    ensures input.Valid() && r == Parse(s, old(input.Rest()))
    ensures r.Some? ==> input.limit == old(input.limit) && input.pos == input.limit
  {
    var m := DEFAULT;
    var done := false;
    while !done
      invariant input.Valid() && input.limit == old(input.limit)
      invariant Parse(s, old(input.Rest())) == ParseFrom(s, m, input.Rest())
      invariant done ==> input.pos == input.limit
      decreases !done, input.limit - input.pos
    {
      if input.Rest() != [] {
        ParseOneTag(s, m, input.Rest());
      }
      var tag := input.ReadTag();
      if tag.None? {
        return None;
      }
      if tag.value == 0 {
        done := true;
      } else {
        var m' := ParseField(s, input, tag.value, m);
        if m'.None? {
          return None;
        }
        m := m'.value;
      }
    }
    assert input.Rest() == [];
    r := Some(m);
  }
}
