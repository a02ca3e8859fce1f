/**
 The generated message and builder classes on the heap.  Builders share their
 int list and map fields with the messages they build; the bit 0x2 of a builder
 and the mutability flags of the shared parts decide when to copy.
 */
module Builders {
  import opened Basics
  import opened Wire
  import opened OperatorState
  import opened CodecProofs

  /** Internal.IntList: writable until makeImmutable. */
  class IntList {
    var elems: seq<int32>
    var mutable: bool

    constructor (elems: seq<int32>, mutable: bool)
      ensures this.elems == elems && this.mutable == mutable
    {
      this.elems, this.mutable := elems, mutable;
    }

    /** The runtime throws UnsupportedOperationException on an immutable list. */
    method AddAll(xs: seq<int32>)
      requires mutable
      modifies this`elems
      ensures elems == old(elems) + xs
    {
      elems := elems + xs;
    }

    method SetInt(index: nat, i: int32)
      requires mutable && index < |elems|
      modifies this`elems
      ensures elems == old(elems)[index := i]
    {
      elems := elems[index := i];
    }

    method MakeImmutable()
      modifies if mutable then {this} else {}
      ensures !mutable && elems == old(elems)
    {
      if mutable { mutable := false; }
    }
  }

  /** MapField: its map refuses writes once the field is immutable. */
  class MapField {
    var entries: Counts
    var mutable: bool

    constructor (entries: Counts)
      ensures this.entries == entries && mutable
    {
      this.entries, this.mutable := entries, true;
    }

    method SetEntries(entries: Counts)
      requires mutable
      modifies this`entries
      ensures this.entries == entries
    {
      this.entries := entries;
    }

    method MakeImmutable()
      modifies if mutable then {this} else {}
      ensures !mutable && entries == old(entries)
    {
      if mutable { mutable := false; }
    }
  }

  function Entries(f: MapField?): Counts
    reads f
  {
    if f == null then map[] else f.entries
  }

  /** A bit field as the set of its positions that are on: 0x10 is position 4. */
  type Bits = set<nat>

  // Has-bits of a message: 0x1, 0x2, 0x4
  const SCALAR_BIT: nat := 0
  const TYPE_BIT: nat := 1
  const ID_BIT: nat := 2
  // Bits of a builder: 0x1 again, 0x2 for a list the builder owns, 0x10, 0x20
  const OWN_LIST_BIT: nat := 1
  const BUILDER_TYPE_BIT: nat := 4
  const BUILDER_ID_BIT: nat := 5

  /** buildPartial renumbers the has-bits and drops the ownership bit. */
  function MessageBits(bits: Bits): (r: Bits)
    ensures 0 in r <==> 0 in bits
    ensures 1 in r <==> 4 in bits
    ensures 2 in r <==> 5 in bits
    ensures r <= {0, 1, 2}
  {
    (if SCALAR_BIT in bits then {SCALAR_BIT} else {})
    + (if BUILDER_TYPE_BIT in bits then {TYPE_BIT} else {})
    + (if BUILDER_ID_BIT in bits then {ID_BIT} else {})
  }

  function Field(bits: Bits, bit: nat, i: int32): Option<int32> {
    if bit in bits then Some(i) else None
  }

  ghost function WritableList(list: IntList): set<object>
    reads list
  {
    if list.mutable then {list} else {}
  }

  ghost function WritableMap(f: MapField?): set<object>
    reads f
  {
    if f != null && f.mutable then {f} else {}
  }

  class StateMessage {
    var bits: Bits
    var scalar: int32
    var vt: IntList
    var inputs: MapField?
    var outputs: MapField?
    var opType: int32
    var id: int32
    var unknown: UnknownFields

    function View(): Message
      reads this, vt, inputs, outputs
    {
      Message(Field(bits, SCALAR_BIT, scalar), vt.elems, Entries(inputs), Entries(outputs),
              Field(bits, TYPE_BIT, opType), Field(bits, ID_BIT, id), unknown)
    }

    /** Unset fields hold their defaults, so the plain getters need no test of the has-bit. */
    ghost predicate Valid(s: Schema)
      reads this, vt
    {
      && !vt.mutable
      && (SCALAR_BIT !in bits ==> scalar == 0)
      && (TYPE_BIT !in bits ==> opType == s.defaultType)
      && (ID_BIT !in bits ==> id == 0)
      && (!s.hasCounts ==> inputs == null && outputs == null && TYPE_BIT !in bits)
      && (!s.hasId ==> ID_BIT !in bits)
    }

    /** What the parsing constructor leaves: an immutable list and maps that nobody froze but nobody else refers to. */
    constructor Parsed(s: Schema, empty: IntList, m: Message)
      requires !empty.mutable && empty.elems == [] && Declared(s, m)
      ensures Valid(s) && View() == m
      ensures vt == empty || fresh(vt)
      ensures inputs != null ==> fresh(inputs)
      ensures outputs != null ==> fresh(outputs)
    {
      bits := (if m.scalar.Some? then {SCALAR_BIT} else {})
              + (if m.opType.Some? then {TYPE_BIT} else {})
              + (if m.id.Some? then {ID_BIT} else {});
      scalar, opType, id := m.GetScalar(), m.GetOperatorType(s), m.GetId();
      unknown := m.unknown;
      if m.vt == [] { vt := empty; } else { vt := new IntList(m.vt, false); }
      if m.inputs == map[] { inputs := null; } else { inputs := new MapField(m.inputs); }
      if m.outputs == map[] { outputs := null; } else { outputs := new MapField(m.outputs); }
    }

    /** The private constructor that buildPartial fills in. */
    constructor Built(ghost s: Schema, bits: Bits, scalar: int32, vt: IntList, inputs: MapField?, outputs: MapField?,
                      opType: int32, id: int32, unknown: UnknownFields)
      requires !vt.mutable
      requires (SCALAR_BIT !in bits ==> scalar == 0) && (TYPE_BIT !in bits ==> opType == s.defaultType)
      requires ID_BIT !in bits ==> id == 0
      requires !s.hasCounts ==> inputs == null && outputs == null && TYPE_BIT !in bits
      requires !s.hasId ==> ID_BIT !in bits
      ensures Valid(s)
      ensures View() == Message(Field(bits, SCALAR_BIT, scalar), vt.elems, Entries(inputs), Entries(outputs),
                                Field(bits, TYPE_BIT, opType), Field(bits, ID_BIT, id), unknown)
      ensures this.vt == vt && this.inputs == inputs && this.outputs == outputs
    {
      this.bits, this.scalar, this.vt, this.inputs, this.outputs := bits, scalar, vt, inputs, outputs;
      this.opType, this.id, this.unknown := opType, id, unknown;
    }

    /** The private constructor behind the default instance and every parse. */
    constructor (s: Schema, empty: IntList)
      requires !empty.mutable && empty.elems == []
      ensures Valid(s) && View() == DEFAULT
      ensures vt == empty && inputs == null && outputs == null && bits == {}
      ensures scalar == 0 && opType == s.defaultType && id == 0 && unknown == map[]
    {
      bits, scalar, vt, inputs, outputs := {}, 0, empty, null, null;
      opType, id, unknown := s.defaultType, 0, map[];
    }
  }

  /** The calls a client can make on one builder, other than mergeFrom and build. */
  datatype Edit =
    | SetScalar(i: int32)
    | ClearScalar
    | SetVt(index: int, i: int32)
    | AddAllVt(xs: seq<int32>)
    | ClearVt
    | PutInputs(entries: Counts)
    | RemoveInputs(keys: set<int32>)
    | PutOutputs(entries: Counts)
    | RemoveOutputs(keys: set<int32>)
    | SetType(i: int32)
    | ClearType
    | SetId(i: int32)
    | ClearId
    | SetUnknown(u: UnknownFields)
    | Clear

  /** What an edit means for a builder that owns everything it holds. */
  function EditValue(m: Message, e: Edit): Message {
    match e
    case SetScalar(i) => m.(scalar := Some(i))
    case ClearScalar => m.(scalar := None)
    case SetVt(index, i) => if 0 <= index < |m.vt| then m.(vt := m.vt[index := i]) else m
    case AddAllVt(xs) => m.(vt := m.vt + xs)
    case ClearVt => m.(vt := [])
    case PutInputs(entries) => m.(inputs := m.inputs + entries)
    case RemoveInputs(keys) => m.(inputs := m.inputs - keys)
    case PutOutputs(entries) => m.(outputs := m.outputs + entries)
    case RemoveOutputs(keys) => m.(outputs := m.outputs - keys)
    case SetType(i) => m.(opType := Some(i))
    case ClearType => m.(opType := None)
    case SetId(i) => m.(id := Some(i))
    case ClearId => m.(id := None)
    case SetUnknown(u) => m.(unknown := u)
    case Clear => DEFAULT
  }

  /** Calls on fields the message type declares. */
  predicate Available(s: Schema, e: Edit) {
    match e
    case PutInputs(_) => s.hasCounts
    case RemoveInputs(_) => s.hasCounts
    case PutOutputs(_) => s.hasCounts
    case RemoveOutputs(_) => s.hasCounts
    case SetType(_) => s.hasCounts
    case ClearType => s.hasCounts
    case SetId(_) => s.hasId
    case ClearId => s.hasId
    case _ => true
  }

  lemma MergeButList(x: Message, y: Message)
    ensures Merge(x, y).(vt := x.vt) ==
            x.(scalar := Override(x.scalar, y.scalar), opType := Override(x.opType, y.opType), id := Override(x.id, y.id),
               unknown := MergeUnknown(x.unknown, y.unknown),
               inputs := x.inputs + y.inputs, outputs := x.outputs + y.outputs)
  {
  }

  class Builder {
    const schema: Schema
    const empty: IntList  // the shared immutable list of emptyIntList()
    var bits: Bits
    var scalar: int32
    var vt: IntList
    var inputs: MapField?
    var outputs: MapField?
    var opType: int32
    var id: int32
    var unknown: UnknownFields

    ghost predicate Valid()
      reads this, empty, vt, inputs, outputs
    {
      && !empty.mutable && empty.elems == []
      && (OWN_LIST_BIT in bits) == vt.mutable
      && (inputs != null ==> inputs != outputs)
      && (SCALAR_BIT !in bits ==> scalar == 0)
      && (BUILDER_TYPE_BIT !in bits ==> opType == schema.defaultType)
      && (BUILDER_ID_BIT !in bits ==> id == 0)
      && (!schema.hasCounts ==> inputs == null && outputs == null && BUILDER_TYPE_BIT !in bits)
      && (!schema.hasId ==> BUILDER_ID_BIT !in bits)
    }

    /** The parts this builder may write in place. */
    ghost function Owned(): set<object>
      reads this, vt, inputs, outputs
    {
      WritableList(vt) + WritableMap(inputs) + WritableMap(outputs)
    }

    function View(): Message
      reads this, vt, inputs, outputs
    {
      Message(Field(bits, SCALAR_BIT, scalar), vt.elems, Entries(inputs), Entries(outputs),
              Field(bits, BUILDER_TYPE_BIT, opType), Field(bits, BUILDER_ID_BIT, id), unknown)
    }

    /** Every part is the one from before, new, or (the list only) `other`; the old ones gained no write access. */
    twostate predicate PartsKeptOrFresh(other: IntList)
      reads this, vt, inputs, outputs
    {
      && (fresh(vt) || (vt == old(vt) && (vt.mutable ==> old(vt.mutable))) || (vt == other && !vt.mutable))
      && (inputs != null ==>
            fresh(inputs) || (inputs == old(inputs) && (inputs.mutable ==> old(inputs != null && inputs.mutable))))
      && (outputs != null ==>
            fresh(outputs) || (outputs == old(outputs) && (outputs.mutable ==> old(outputs != null && outputs.mutable))))
    }

    constructor (schema: Schema, empty: IntList)
      requires !empty.mutable && empty.elems == []
      ensures Valid() && this.schema == schema && this.empty == empty
      ensures View() == DEFAULT && vt == empty && inputs == null && outputs == null
    {
      this.schema, this.empty := schema, empty;
      bits, scalar, vt, inputs, outputs := {}, 0, empty, null, null;
      opType, id, unknown := schema.defaultType, 0, map[];
    }

    /** ensureVTimestampIsMutable */
    method EnsureVtIsMutable()
      requires Valid()
      modifies this`vt, this`bits
      ensures Valid() && View() == old(View())
      ensures vt.mutable && PartsKeptOrFresh(empty) && (vt == old(vt) || fresh(vt))
      ensures vt.elems == old(vt.elems)
    {
      if OWN_LIST_BIT !in bits {
        vt := new IntList(vt.elems, true);
        bits := bits + {OWN_LIST_BIT};
      }
    }

    /** internalGetMutableInputCounts */
    method MutableInputs() returns (f: MapField)
      requires Valid() && schema.hasCounts
      modifies this`inputs
      ensures Valid() && View() == old(View())
      ensures f == inputs && f.mutable && f.entries == old(Entries(inputs))
      ensures fresh(f) || (f == old(inputs) && old(inputs != null && inputs.mutable))
    {
      if inputs == null {
        inputs := new MapField(map[]);
      }
      if !inputs.mutable {
        inputs := new MapField(inputs.entries);
      }
      f := inputs;
    }

    /** internalGetMutableOutputCounts */
    method MutableOutputs() returns (f: MapField)
      requires Valid() && schema.hasCounts
      modifies this`outputs
      ensures Valid() && View() == old(View())
      ensures f == outputs && f.mutable && f.entries == old(Entries(outputs))
      ensures fresh(f) || (f == old(outputs) && old(outputs != null && outputs.mutable))
    {
      if outputs == null {
        outputs := new MapField(map[]);
      }
      if !outputs.mutable {
        outputs := new MapField(outputs.entries);
      }
      f := outputs;
    }

    /** setOffset, setID or setWordCount: field 1 */
    method SetScalar(i: int32)
      requires Valid()
      modifies this`bits, this`scalar
      ensures Valid()
      ensures View() == old(View()).(scalar := Some(i))
    {
      bits, scalar := bits + {SCALAR_BIT}, i;
    }

    method ClearScalar()
      requires Valid()
      modifies this`bits, this`scalar
      ensures Valid()
      ensures View() == old(View()).(scalar := None)
    {
      bits, scalar := bits - {SCALAR_BIT}, 0;
    }

    /** An index out of range throws, after the list has been made mutable. */
    method SetVt(index: int, i: int32)
      requires Valid()
      modifies this`vt, this`bits, WritableList(vt)
      ensures Valid() && PartsKeptOrFresh(empty)
      ensures View() == if 0 <= index < |old(View()).vt| then old(View()).(vt := old(View()).vt[index := i]) else old(View())
    {
      EnsureVtIsMutable();
      if 0 <= index < |vt.elems| {
        vt.SetInt(index, i);
      }
    }

    method AddAllVt(xs: seq<int32>)
      requires Valid()
      modifies this`vt, this`bits, WritableList(vt)
      ensures Valid() && PartsKeptOrFresh(empty)
      ensures View() == old(View()).(vt := old(View()).vt + xs)
    {
      EnsureVtIsMutable();
      vt.AddAll(xs);
    }

    method ClearVt()
      requires Valid()
      modifies this`bits, this`vt
      ensures Valid() && PartsKeptOrFresh(empty)
      ensures View() == old(View()).(vt := [])
    {
      vt, bits := empty, bits - {OWN_LIST_BIT};
    }

    method PutInputs(entries: Counts)
      requires Valid()
      requires schema.hasCounts
      modifies this`inputs, WritableMap(inputs)
      ensures Valid() && PartsKeptOrFresh(empty)
      ensures View() == old(View()).(inputs := old(View()).inputs + entries)
    {
      var f := MutableInputs();
      f.SetEntries(f.entries + entries);
    }

    method RemoveInputs(keys: set<int32>)
      requires Valid()
      requires schema.hasCounts
      modifies this`inputs, WritableMap(inputs)
      ensures Valid() && PartsKeptOrFresh(empty)
      ensures View() == old(View()).(inputs := old(View()).inputs - keys)
    {
      var f := MutableInputs();
      f.SetEntries(f.entries - keys);
    }

    method PutOutputs(entries: Counts)
      requires Valid()
      requires schema.hasCounts
      modifies this`outputs, WritableMap(outputs)
      ensures Valid() && PartsKeptOrFresh(empty)
      ensures View() == old(View()).(outputs := old(View()).outputs + entries)
    {
      var f := MutableOutputs();
      f.SetEntries(f.entries + entries);
    }

    method RemoveOutputs(keys: set<int32>)
      requires Valid()
      requires schema.hasCounts
      modifies this`outputs, WritableMap(outputs)
      ensures Valid() && PartsKeptOrFresh(empty)
      ensures View() == old(View()).(outputs := old(View()).outputs - keys)
    {
      var f := MutableOutputs();
      f.SetEntries(f.entries - keys);
    }

    method SetType(i: int32)
      requires Valid()
      requires schema.hasCounts
      modifies this`bits, this`opType
      ensures Valid()
      ensures View() == old(View()).(opType := Some(i))
    {
      bits, opType := bits + {BUILDER_TYPE_BIT}, i;
    }

    method ClearType()
      requires Valid()
      requires schema.hasCounts
      modifies this`bits, this`opType
      ensures Valid()
      ensures View() == old(View()).(opType := None)
    {
      bits, opType := bits - {BUILDER_TYPE_BIT}, schema.defaultType;
    }

    method SetId(i: int32)
      requires Valid()
      requires schema.hasId
      modifies this`bits, this`id
      ensures Valid()
      ensures View() == old(View()).(id := Some(i))
    {
      bits, id := bits + {BUILDER_ID_BIT}, i;
    }

    method ClearId()
      requires Valid()
      requires schema.hasId
      modifies this`bits, this`id
      ensures Valid()
      ensures View() == old(View()).(id := None)
    {
      bits, id := bits - {BUILDER_ID_BIT}, 0;
    }

    method SetUnknown(u: UnknownFields)
      requires Valid()
      modifies this`unknown
      ensures Valid()
      ensures View() == old(View()).(unknown := u)
    {
      unknown := u;
    }

    method ClearScalars()
      requires Valid()
      modifies this`bits, this`scalar, this`opType, this`id, this`unknown
      ensures Valid()
      ensures View() == old(View()).(scalar := None, opType := None, id := None, unknown := map[])
    {
      SetUnknown(map[]);
      ClearScalar();
      if schema.hasCounts { ClearType(); }
      if schema.hasId { ClearId(); }
    }

    method ClearMaps()
      requires Valid() && schema.hasCounts
      modifies this`inputs, this`outputs, WritableMap(inputs), WritableMap(outputs)
      ensures Valid() && PartsKeptOrFresh(empty)
      ensures View() == old(View()).(inputs := map[], outputs := map[])
    {
      RemoveInputs(Entries(inputs).Keys);
      RemoveOutputs(Entries(outputs).Keys);
    }

    /** clear: the maps are emptied through their mutable copies, everything else is reset. */
    method Clear()
      requires Valid()
      modifies this, Owned()
      ensures Valid() && PartsKeptOrFresh(empty)
      ensures View() == DEFAULT
    {
      ClearScalars();
      ClearVt();
      if schema.hasCounts {
        ClearMaps();
      }
    }

    method PerformOnMaps(e: Edit)
      requires Valid() && Available(schema, e)
      requires e.PutInputs? || e.RemoveInputs? || e.PutOutputs? || e.RemoveOutputs?
      modifies this`inputs, this`outputs, WritableMap(inputs), WritableMap(outputs)
      ensures Valid() && PartsKeptOrFresh(empty)
      ensures View() == EditValue(old(View()), e)
    {
      match e
      case PutInputs(entries) => PutInputs(entries);
      case RemoveInputs(keys) => RemoveInputs(keys);
      case PutOutputs(entries) => PutOutputs(entries);
      case RemoveOutputs(keys) => RemoveOutputs(keys);
    }

    method PerformOnList(e: Edit)
      requires Valid() && (e.SetVt? || e.AddAllVt? || e.ClearVt?)
      modifies this`vt, this`bits, WritableList(vt)
      ensures Valid() && PartsKeptOrFresh(empty)
      ensures View() == EditValue(old(View()), e)
    {
      match e
      case SetVt(index, i) => SetVt(index, i);
      case AddAllVt(xs) => AddAllVt(xs);
      case ClearVt => ClearVt();
    }

    method PerformOnScalars(e: Edit)
      requires Valid() && Available(schema, e)
      requires e.SetScalar? || e.ClearScalar? || e.SetType? || e.ClearType? || e.SetId? || e.ClearId? || e.SetUnknown?
      modifies this`bits, this`scalar, this`opType, this`id, this`unknown
      ensures Valid()
      ensures View() == EditValue(old(View()), e)
    {
      match e
      case SetScalar(i) => SetScalar(i);
      case ClearScalar => ClearScalar();
      case SetType(i) => SetType(i);
      case ClearType => ClearType();
      case SetId(i) => SetId(i);
      case ClearId => ClearId();
      case SetUnknown(u) => SetUnknown(u);
    }

    method Perform(e: Edit)
      requires Valid() && Available(schema, e)
      modifies this, Owned()
      ensures Valid() && PartsKeptOrFresh(empty)
      ensures View() == EditValue(old(View()), e)
    {
      if e.Clear? {
        Clear();
      } else if e.PutInputs? || e.RemoveInputs? || e.PutOutputs? || e.RemoveOutputs? {
        PerformOnMaps(e);
      } else if e.SetVt? || e.AddAllVt? || e.ClearVt? {
        PerformOnList(e);
      } else {
        PerformOnScalars(e);
      }
    }

    method MergeList(theirs: IntList)
      requires Valid() && !theirs.mutable
      modifies this`vt, this`bits, WritableList(vt)
      ensures Valid() && PartsKeptOrFresh(theirs)
      ensures View() == old(View()).(vt := old(View()).vt + old(theirs.elems))
    {
      if theirs.elems != [] {
        if vt.elems == [] {
          vt, bits := theirs, bits - {OWN_LIST_BIT};
        } else {
          EnsureVtIsMutable();
          vt.AddAll(theirs.elems);
        }
      }
    }

    method MergeMaps(ins: Counts, outs: Counts)
      requires Valid() && schema.hasCounts
      modifies this`inputs, this`outputs, WritableMap(inputs), WritableMap(outputs)
      ensures Valid() && PartsKeptOrFresh(empty)
      ensures View() == old(View()).(inputs := old(View()).inputs + ins, outputs := old(View()).outputs + outs)
    {
      PutInputs(ins);
      PutOutputs(outs);
    }

    method MergeScalars(other: StateMessage)
      requires Valid() && other.Valid(schema)
      modifies this`bits, this`scalar, this`opType, this`id, this`unknown
      ensures Valid()
      ensures View() == old(View()).(
        scalar := Override(old(View()).scalar, other.View().scalar),
        opType := Override(old(View()).opType, other.View().opType),
        id := Override(old(View()).id, other.View().id),
        unknown := MergeUnknown(old(View()).unknown, other.View().unknown))
    {
      if SCALAR_BIT in other.bits { SetScalar(other.scalar); }
      if TYPE_BIT in other.bits { SetType(other.opType); }
      if ID_BIT in other.bits { SetId(other.id); }
      SetUnknown(MergeUnknown(unknown, other.unknown));
    }

    method MergeAllButList(other: StateMessage)
      requires Valid() && other.Valid(schema)
      modifies this`bits, this`scalar, this`opType, this`id, this`unknown
      modifies this`inputs, this`outputs, WritableMap(inputs), WritableMap(outputs)
      ensures Valid() && PartsKeptOrFresh(empty)
      ensures View() == Merge(old(View()), old(other.View())).(vt := old(View()).vt)
    {
      ghost var x, y := View(), other.View();
      MergeScalars(other);
      MergeAllMaps(Entries(other.inputs), Entries(other.outputs));
      MergeButList(x, y);
    }

    /** A message type without maps has none to merge. */
    method MergeAllMaps(ins: Counts, outs: Counts)
      requires Valid()
      requires !schema.hasCounts ==> ins == map[] && outs == map[]
      modifies this`inputs, this`outputs, WritableMap(inputs), WritableMap(outputs)
      ensures Valid() && PartsKeptOrFresh(empty)
      ensures View() == old(View()).(inputs := old(View()).inputs + ins, outputs := old(View()).outputs + outs)
    {
      if schema.hasCounts {
        MergeMaps(ins, outs);
      } else {
        assert View().inputs + map[] == View().inputs;
        assert View().outputs + map[] == View().outputs;
      }
    }

    /** mergeFrom: an empty list is replaced by a reference to the other's list, a non-empty one is extended in a copy. */
    method MergeFrom(other: StateMessage)
      requires Valid() && other.Valid(schema)
      modifies this, Owned()
      ensures Valid() && PartsKeptOrFresh(other.vt)
      ensures View() == Merge(old(View()), old(other.View()))
    {
      MergeAllButList(other);
      MergeList(other.vt);
    }

    method FreezeList()
      requires Valid()
      modifies this`bits, WritableList(vt)
      ensures Valid() && !vt.mutable && View() == old(View())
      ensures bits == old(bits) - {OWN_LIST_BIT}
    {
      if OWN_LIST_BIT in bits {
        vt.MakeImmutable();
        bits := bits - {OWN_LIST_BIT};
      }
    }

    method FrozenMap(own: MapField?) returns (f: MapField)
      modifies WritableMap(own)
      ensures !f.mutable && f.entries == old(Entries(own))
      ensures if own == null then fresh(f) else f == own
    {
      if own == null { f := new MapField(map[]); } else { f := own; }
      f.MakeImmutable();
    }

    method FrozenMaps() returns (ins: MapField?, outs: MapField?)
      requires Valid()
      modifies WritableMap(inputs), WritableMap(outputs)
      ensures Valid() && View() == old(View()) && WritableMap(inputs) == {} == WritableMap(outputs)
      ensures Entries(ins) == Entries(inputs) && Entries(outs) == Entries(outputs)
      ensures WritableMap(ins) == {} == WritableMap(outs)
      ensures if schema.hasCounts then ins != null && outs != null else ins == null && outs == null
      ensures ins == inputs || fresh(ins)
      ensures outs == outputs || fresh(outs)
    {
      ins, outs := null, null;
      if schema.hasCounts {
        ins := FrozenMap(inputs);
        outs := FrozenMap(outputs);
      }
    }

    /** Every part becomes immutable; maps that were never touched are replaced by empty ones. */
    method Freeze() returns (ins: MapField?, outs: MapField?)
      requires Valid()
      modifies this`bits, Owned()
      ensures Valid() && View() == old(View())
      ensures !vt.mutable && WritableMap(inputs) == {} == WritableMap(outputs)
      ensures bits == old(bits) - {OWN_LIST_BIT}
      ensures Entries(ins) == Entries(inputs) && Entries(outs) == Entries(outputs)
      ensures WritableMap(ins) == {} == WritableMap(outs)
      ensures !schema.hasCounts ==> ins == null && outs == null
      ensures ins == inputs || fresh(ins)
      ensures outs == outputs || fresh(outs)
    {
      FreezeList();
      ins, outs := FrozenMaps();
    }

    /** buildPartial: the frozen parts are from now on shared with the message. */
    method Build() returns (result: StateMessage)
      requires Valid()
      modifies this`bits, Owned()
      ensures Valid() && View() == old(View())
      ensures !vt.mutable && WritableMap(inputs) == {} == WritableMap(outputs)
      ensures fresh(result) && result.Valid(schema) && result.View() == View()
      ensures result.vt == vt && WritableMap(result.inputs) == {} == WritableMap(result.outputs)
      ensures result.inputs == inputs || fresh(result.inputs)
      ensures result.outputs == outputs || fresh(result.outputs)
    {
      var messageBits := MessageBits(bits);
      var ins, outs := Freeze();
      result := new StateMessage.Built(schema, messageBits, scalar, vt, ins, outs, opType, id, unknown);
    }
  }
}
