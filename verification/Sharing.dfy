/**
 Any number of builders and messages that share lists and maps by reference,
 driven by an arbitrary interleaving of client calls.  Copy-on-write behaves as
 if every builder and message owned its value: the heap refines a Store of plain
 values, in which a message, once made, is never touched again.
 */
module Sharing {
  import opened Basics
  import opened Wire
  import opened OperatorState
  import opened CodecProofs
  import opened Builders
  import Parsing

  /** A client call; builders and messages are named by the order in which they were made. */
  datatype Call =
    | NewBuilder
    | ToBuilder(message: nat)
    | EditBuilder(builder: nat, edit: Edit)
    | MergeMessage(builder: nat, message: nat)
    | BuildMessage(builder: nat)
    | ParseMessage(bs: bytes)

  /** The simple form: everything is a value and nothing is shared. */
  datatype Store = Store(builders: seq<Message>, messages: seq<Message>)

  /** The builder and message a call names have been made, and the message type has the method. */
  predicate Callable(s: Schema, builders: nat, messages: nat, c: Call) {
    match c
    case NewBuilder => true
    case ToBuilder(m) => m < messages
    case EditBuilder(b, e) => b < builders && Available(s, e)
    case MergeMessage(b, m) => b < builders && m < messages
    case BuildMessage(b) => b < builders
    case ParseMessage(_) => true
  }

  function CallValue(s: Schema, st: Store, c: Call): Store
    requires Callable(s, |st.builders|, |st.messages|, c)
  {
    match c
    case NewBuilder => st.(builders := st.builders + [DEFAULT])
    case ToBuilder(m) => st.(builders := st.builders + [st.messages[m]])
    case EditBuilder(b, e) => st.(builders := st.builders[b := EditValue(st.builders[b], e)])
    case MergeMessage(b, m) => st.(builders := st.builders[b := Merge(st.builders[b], st.messages[m])])
    case BuildMessage(b) => st.(messages := st.messages + [st.builders[b]])
    case ParseMessage(bs) =>
      var m := Parse(s, bs);
      if m.None? then st else st.(messages := st.messages + [m.value])
  }

  /** A call that names something not made yet cannot be written by a client; it is skipped. */
  function StepValue(s: Schema, st: Store, c: Call): Store {
    if Callable(s, |st.builders|, |st.messages|, c) then CallValue(s, st, c) else st
  }

  function RunValue(s: Schema, st: Store, calls: seq<Call>): Store
    decreases |calls|
  {
    if calls == [] then st else RunValue(s, StepValue(s, st, calls[0]), calls[1..])
  }

  /** In the simple form no call touches a message that exists. */
  lemma {:induction false} MessagesNeverChange(s: Schema, st: Store, calls: seq<Call>)
    ensures st.messages <= RunValue(s, st, calls).messages
    decreases |calls|
  {
    if calls != [] {
      MessagesNeverChange(s, StepValue(s, st, calls[0]), calls[1..]);
    }
  }

  /** toBuilder, built at once, is the original. */
  lemma CopyIsOriginal(s: Schema, st: Store, m: nat)
    requires m < |st.messages|
    ensures RunValue(s, st, [ToBuilder(m), BuildMessage(|st.builders|)]).messages == st.messages + [st.messages[m]]
  {
    var b := |st.builders|;
    var calls := [ToBuilder(m), BuildMessage(b)];
    var copied := StepValue(s, st, ToBuilder(m));
    assert calls[1..] == [BuildMessage(b)] && calls[1..][1..] == [];
    assert copied.builders[b] == st.messages[m];
    assert RunValue(s, copied, [BuildMessage(b)]) == RunValue(s, StepValue(s, copied, BuildMessage(b)), []);
  }

  /** `b` may not write anything that builder `c` refers to. */
  ghost predicate ApartFromBuilder(b: Builder, c: Builder)
    reads b, b.vt, b.inputs, b.outputs, c
  {
    && b != c
    && (b.vt.mutable ==> b.vt != c.vt)
    && (b.inputs != null && b.inputs.mutable ==> b.inputs != c.inputs && b.inputs != c.outputs)
    && (b.outputs != null && b.outputs.mutable ==> b.outputs != c.inputs && b.outputs != c.outputs)
  }

  /** `b` may not write anything that message `m` refers to. */
  ghost predicate ApartFromMessage(b: Builder, m: StateMessage)
    reads b, b.vt, b.inputs, b.outputs, m
  {
    && (b.vt.mutable ==> b.vt != m.vt)
    && (b.inputs != null && b.inputs.mutable ==> b.inputs != m.inputs && b.inputs != m.outputs)
    && (b.outputs != null && b.outputs.mutable ==> b.outputs != m.inputs && b.outputs != m.outputs)
  }

  /** Builder `b` lies within `all`, is valid and shows `v`. */
  ghost predicate BuilderOk(s: Schema, empty: IntList, all: set<object>, b: Builder, v: Message)
    reads all
  {
    && b in all && b.vt in all && empty in all
    && (b.inputs != null ==> b.inputs in all)
    && (b.outputs != null ==> b.outputs in all)
    && b.schema == s && b.empty == empty
    && b.Valid() && b.View() == v
  }

  ghost predicate MessageOk(s: Schema, all: set<object>, m: StateMessage, v: Message)
    reads all
  {
    && m in all && m.vt in all
    && (m.inputs != null ==> m.inputs in all)
    && (m.outputs != null ==> m.outputs in all)
    && m.Valid(s) && m.View() == v
  }

  class World {
    const schema: Schema
    const empty: IntList
    var builders: seq<Builder>
    var messages: seq<StateMessage>
    ghost var store: Store
    ghost var repr: set<object>

    ghost predicate Valid()
      reads this, repr
    {
      && this !in repr
      && empty in repr && !empty.mutable && empty.elems == []
      && |builders| == |store.builders| && |messages| == |store.messages|
      && (forall i {:trigger BuilderOk(schema, empty, repr, builders[i], store.builders[i])} ::
            0 <= i < |builders| ==> BuilderOk(schema, empty, repr, builders[i], store.builders[i]))
      && (forall i {:trigger MessageOk(schema, repr, messages[i], store.messages[i])} ::
            0 <= i < |messages| ==> MessageOk(schema, repr, messages[i], store.messages[i]))
      && (forall i, j {:trigger ApartFromBuilder(builders[i], builders[j])} ::
            0 <= i < |builders| && 0 <= j < |builders| && i != j ==>
              assert BuilderOk(schema, empty, repr, builders[i], store.builders[i]);
              assert BuilderOk(schema, empty, repr, builders[j], store.builders[j]);
              ApartFromBuilder(builders[i], builders[j]))
      && (forall i, j {:trigger ApartFromMessage(builders[i], messages[j])} ::
            0 <= i < |builders| && 0 <= j < |messages| ==>
              assert BuilderOk(schema, empty, repr, builders[i], store.builders[i]);
              assert MessageOk(schema, repr, messages[j], store.messages[j]);
              ApartFromMessage(builders[i], messages[j]))
    }

    constructor (schema: Schema)
      ensures Valid() && fresh(repr) && this.schema == schema
      ensures store == Store([], [])
    {
      this.schema := schema;
      empty := new IntList([], false);
      builders, messages := [], [];
      store := Store([], []);
      new;
      repr := {empty};
    }

    twostate predicate OnlyWrote(all: set<object>, b: Builder, owned: set<object>)
      reads all
    {
      forall o <- all :: o != b && o !in owned ==> unchanged(o)
    }

    /** `c` refers to the same parts and may write the same ones. */
    twostate predicate SameRights(c: Builder)
      reads c, c.vt, c.inputs, c.outputs
    {
      && c.vt == old(c.vt) && c.inputs == old(c.inputs) && c.outputs == old(c.outputs)
      && c.vt.mutable == old(c.vt.mutable)
      && (c.inputs != null ==> c.inputs.mutable == old(c.inputs != null && c.inputs.mutable))
      && (c.outputs != null ==> c.outputs.mutable == old(c.outputs != null && c.outputs.mutable))
    }

    twostate predicate SameParts(m: StateMessage)
      reads m
    {
      m.vt == old(m.vt) && m.inputs == old(m.inputs) && m.outputs == old(m.outputs)
    }

    /** If only builder k and what it owned were written, every other builder still shows the same value. */
    twostate lemma OtherBuilderKept(new k: nat, new i: nat)
      requires old(Valid()) && k < |builders| && builders == old(builders) && i < |builders| && i != k
      requires old(repr) <= repr && OnlyWrote(old(repr), builders[k], old(builders[k].Owned()))
      ensures SameRights(builders[i]) && BuilderOk(schema, empty, repr, builders[i], old(store.builders[i]))
    {
      var c := builders[i];
      assert old(ApartFromBuilder(builders[k], c));
      assert old(BuilderOk(schema, empty, repr, c, store.builders[i]));
      assert unchanged(empty);
    }

    /** ... and so does every message. */
    twostate lemma MessageKept(new k: nat, new j: nat)
      requires old(Valid()) && k < |builders| && builders == old(builders)
      requires j < |messages| && messages == old(messages)
      requires old(repr) <= repr && OnlyWrote(old(repr), builders[k], old(builders[k].Owned()))
      ensures SameParts(messages[j]) && MessageOk(schema, repr, messages[j], old(store.messages[j]))
    {
      var m := messages[j];
      assert old(ApartFromMessage(builders[k], m));
      assert old(MessageOk(schema, repr, m, store.messages[j]));
      assert unchanged(m) && unchanged(m.vt);
    }

    /** A builder that kept its parts, or replaced them by new or immutable ones, can still write nothing of anyone else's. */
    twostate lemma StillApart(new k: nat, new i: nat, other: IntList)
      requires old(Valid()) && k < |builders| && builders == old(builders) && i < |builders| && i != k
      requires SameRights(builders[i])
      requires !other.mutable && builders[k].PartsKeptOrFresh(other)
      ensures ApartFromBuilder(builders[k], builders[i]) && ApartFromBuilder(builders[i], builders[k])
    {
      assert old(BuilderOk(schema, empty, repr, builders[i], store.builders[i]));
      assert old(BuilderOk(schema, empty, repr, builders[k], store.builders[k]));
      assert old(ApartFromBuilder(builders[k], builders[i])) && old(ApartFromBuilder(builders[i], builders[k]));
    }

    twostate lemma StillApartFromMessage(new k: nat, new j: nat, other: IntList)
      requires old(Valid()) && k < |builders| && builders == old(builders)
      requires j < |messages| && messages == old(messages)
      requires SameParts(messages[j])
      requires !other.mutable && builders[k].PartsKeptOrFresh(other)
      ensures ApartFromMessage(builders[k], messages[j])
    {
      assert old(ApartFromMessage(builders[k], messages[j]));
      assert old(MessageOk(schema, repr, messages[j], store.messages[j]));
    }

    twostate lemma BuildersAfterWrite(new k: nat, other: IntList)
      requires old(Valid()) && k < |builders| && builders == old(builders)
      requires old(repr) <= repr && OnlyWrote(old(repr), builders[k], old(builders[k].Owned()))
      requires !other.mutable && builders[k].PartsKeptOrFresh(other)
      ensures forall i | 0 <= i < |builders| && i != k :: BuilderOk(schema, empty, repr, builders[i], old(store.builders[i]))
      ensures forall i, j | 0 <= i < |builders| && 0 <= j < |builders| && i != j ::
                ApartFromBuilder(builders[i], builders[j])
    {
      forall i | 0 <= i < |builders| && i != k
        ensures SameRights(builders[i]) && BuilderOk(schema, empty, repr, builders[i], old(store.builders[i]))
      {
        OtherBuilderKept(k, i);
      }
      forall i, j | 0 <= i < |builders| && 0 <= j < |builders| && i != j
        ensures ApartFromBuilder(builders[i], builders[j])
      {
        assert old(ApartFromBuilder(builders[i], builders[j]));
        if i == k {
          StillApart(k, j, other);
        } else if j == k {
          StillApart(k, i, other);
        }
      }
    }

    twostate lemma MessagesAfterWrite(new k: nat, other: IntList)
      requires old(Valid()) && k < |builders| && builders == old(builders) && messages == old(messages)
      requires old(repr) <= repr && OnlyWrote(old(repr), builders[k], old(builders[k].Owned()))
      requires !other.mutable && builders[k].PartsKeptOrFresh(other)
      ensures forall j | 0 <= j < |messages| :: MessageOk(schema, repr, messages[j], old(store.messages[j]))
      ensures forall i, j | 0 <= i < |builders| && 0 <= j < |messages| ::
                ApartFromMessage(builders[i], messages[j])
    {
      forall j | 0 <= j < |messages|
        ensures SameParts(messages[j]) && MessageOk(schema, repr, messages[j], old(store.messages[j]))
        ensures ApartFromMessage(builders[k], messages[j])
      {
        MessageKept(k, j);
        StillApartFromMessage(k, j, other);
      }
      forall i, j | 0 <= i < |builders| && 0 <= j < |messages|
        ensures ApartFromMessage(builders[i], messages[j])
      {
        assert old(ApartFromMessage(builders[i], messages[j]));
        if i != k {
          OtherBuilderKept(k, i);
        }
      }
    }

    ghost function PartsOf(b: Builder): set<object>
      reads b
    {
      var ins: set<object> := if b.inputs == null then {} else {b.inputs};
      var outs: set<object> := if b.outputs == null then {} else {b.outputs};
      {b, b.vt} + ins + outs
    }

    twostate lemma NewPartsAreFresh(new k: nat, other: IntList)
      requires k < |builders| && builders == old(builders) && k < |old(store).builders|
      requires old(BuilderOk(schema, empty, repr, builders[k], store.builders[k])) && other in old(repr)
      requires builders[k].PartsKeptOrFresh(other) && repr == old(repr) + PartsOf(builders[k])
      ensures fresh(repr - old(repr))
    {
    }

    /** The invariant survives a call that wrote only builder k and left it showing `v`. */
    twostate lemma ValidAfterWrite(new k: nat, new v: Message, other: IntList)
      requires old(Valid()) && k < |builders| && builders == old(builders) && messages == old(messages)
      requires OnlyWrote(old(repr), builders[k], old(builders[k].Owned()))
      requires other in old(repr) && !other.mutable && builders[k].PartsKeptOrFresh(other)
      requires repr == old(repr) + PartsOf(builders[k])
      requires store == old(store).(builders := old(store).builders[k := v])
      requires BuilderOk(schema, empty, repr, builders[k], v)
      ensures Valid() && fresh(repr - old(repr))
    {
      BuildersAfterWrite(k, other);
      MessagesAfterWrite(k, other);
      assert old(BuilderOk(schema, empty, repr, builders[k], store.builders[k]));
      NewPartsAreFresh(k, other);
    }

    /** Bookkeeping after a write to builder k. */
    ghost method Record(k: nat, v: Message)
      requires this !in repr && k < |builders| == |store.builders| && builders[k] in repr && empty in repr
      requires builders[k].schema == schema && builders[k].empty == empty
      requires builders[k].Valid() && builders[k].View() == v
      modifies this`repr, this`store
      ensures repr == old(repr) + PartsOf(builders[k])
      ensures store == old(store).(builders := old(store).builders[k := v])
      ensures BuilderOk(schema, empty, repr, builders[k], v)
    {
      repr := repr + PartsOf(builders[k]);
      store := store.(builders := store.builders[k := v]);
    }

    method EditOne(k: nat, e: Edit)
      requires this !in repr && k < |builders| == |store.builders| && Available(schema, e)
      requires BuilderOk(schema, empty, repr, builders[k], store.builders[k])
      modifies this`repr, this`store, builders[k], builders[k].Owned()
      ensures repr == old(repr) + PartsOf(builders[k])
      ensures store == old(store).(builders := old(store).builders[k := EditValue(old(store).builders[k], e)])
      ensures BuilderOk(schema, empty, repr, builders[k], store.builders[k]) && builders[k].PartsKeptOrFresh(empty)
    {
      var b := builders[k];
      b.Perform(e);
      Record(k, EditValue(store.builders[k], e));
    }

    method Edited(k: nat, e: Edit)
      requires Valid() && k < |builders| && Available(schema, e)
      modifies this, repr
      ensures Valid() && fresh(repr - old(repr))
      ensures store == CallValue(schema, old(store), EditBuilder(k, e))
      ensures old(messages) <= messages
    {
      assert BuilderOk(schema, empty, repr, builders[k], store.builders[k]);
      EditOne(k, e);
      ValidAfterWrite(k, store.builders[k], empty);
    }

    method MergeBuilder(b: Builder, ghost mine: Message, m: StateMessage, ghost theirs: Message, ghost shared: IntList)
      requires b.Valid() && b.View() == mine && m.Valid(b.schema) && m.View() == theirs && m.vt == shared
      modifies b, b.Owned()
      ensures b.Valid() && b.View() == Merge(mine, theirs)
      ensures b.PartsKeptOrFresh(shared) && !shared.mutable
    {
      b.MergeFrom(m);
    }

    method MergeOne(k: nat, m: StateMessage, ghost theirs: Message, ghost shared: IntList)
      requires this !in repr && k < |builders| == |store.builders|
      requires BuilderOk(schema, empty, repr, builders[k], store.builders[k])
      requires m.Valid(schema) && m.View() == theirs && m.vt == shared
      modifies this`repr, this`store, builders[k], builders[k].Owned()
      ensures repr == old(repr) + PartsOf(builders[k])
      ensures store == old(store).(builders := old(store).builders[k := Merge(old(store).builders[k], theirs)])
      ensures BuilderOk(schema, empty, repr, builders[k], store.builders[k]) && builders[k].PartsKeptOrFresh(shared)
      ensures !shared.mutable
    {
      MergeBuilder(builders[k], store.builders[k], m, theirs, shared);
      Record(k, Merge(store.builders[k], theirs));
    }

    method MergedInto(k: nat, m: StateMessage, ghost theirs: Message, ghost shared: IntList)
      requires Valid() && k < |builders| && MessageOk(schema, repr, m, theirs) && m.vt == shared
      modifies this`repr, this`store, builders[k], builders[k].Owned()
      ensures Valid() && fresh(repr - old(repr))
      ensures store == old(store).(builders := old(store).builders[k := Merge(old(store).builders[k], theirs)])
    {
      assert BuilderOk(schema, empty, repr, builders[k], store.builders[k]);
      MergeOne(k, m, theirs, shared);
      ValidAfterWrite(k, store.builders[k], shared);
    }

    /** mergeFrom */
    method Merged(k: nat, j: nat)
      requires Valid() && k < |builders| && j < |messages|
      modifies this, repr
      ensures Valid() && fresh(repr - old(repr))
      ensures store == CallValue(schema, old(store), MergeMessage(k, j))
      ensures old(messages) <= messages
    {
      assert BuilderOk(schema, empty, repr, builders[k], store.builders[k]);
      assert MessageOk(schema, repr, messages[j], store.messages[j]);
      MergedInto(k, messages[j], store.messages[j], messages[j].vt);
    }

    /** The parts of a message, for the footprint. */
    ghost function PartsOfMessage(m: StateMessage): set<object>
      reads m
    {
      var ins: set<object> := if m.inputs == null then {} else {m.inputs};
      var outs: set<object> := if m.outputs == null then {} else {m.outputs};
      {m, m.vt} + ins + outs
    }

    /** Each part of `m` is frozen or unknown to every builder. */
    ghost predicate OutOfReach(m: StateMessage)
      reads this, m, m.vt, m.inputs, m.outputs
    {
      && (m.vt.mutable ==> m.vt !in repr)
      && (m.inputs != null && m.inputs.mutable ==> m.inputs !in repr)
      && (m.outputs != null && m.outputs.mutable ==> m.outputs !in repr)
    }

    lemma OutOfReachIsApart(m: StateMessage, i: nat)
      requires Valid() && OutOfReach(m) && i < |builders|
      ensures ApartFromMessage(builders[i], m)
    {
      assert BuilderOk(schema, empty, repr, builders[i], store.builders[i]);
    }

    /** The parts every builder of the world may write are apart from `m`, so `m` can join. */
    lemma OutOfReachOfAll(m: StateMessage)
      requires Valid() && OutOfReach(m)
      ensures forall i | 0 <= i < |builders| :: ApartFromMessage(builders[i], m)
    {
      forall i | 0 <= i < |builders|
        ensures ApartFromMessage(builders[i], m)
      {
        OutOfReachIsApart(m, i);
      }
    }

    /** The world has only grown: no object in it was written. */
    twostate predicate Grown(all: set<object>)
      reads this, all
    {
      && all == old(repr) <= repr && this !in repr && (forall o <- all :: unchanged(o))
      && old(builders) <= builders && old(messages) <= messages
      && old(store).builders <= store.builders && old(store).messages <= store.messages
    }

    twostate lemma OldBuilderKept(new i: nat)
      requires old(Valid()) && Grown(old(repr)) && i < |old(builders)| <= |builders| && i < |store.builders|
      ensures BuilderOk(schema, empty, repr, builders[i], store.builders[i])
    {
      assert old(BuilderOk(schema, empty, repr, builders[i], store.builders[i]));
    }

    twostate lemma OldMessageKept(new j: nat)
      requires old(Valid()) && Grown(old(repr)) && j < |old(messages)| <= |messages| && j < |store.messages|
      ensures MessageOk(schema, repr, messages[j], store.messages[j])
    {
      assert old(MessageOk(schema, repr, messages[j], store.messages[j]));
    }

    twostate lemma OldBuildersApart(new i: nat, new j: nat)
      requires old(Valid()) && Grown(old(repr)) && i < |old(builders)| && j < |old(builders)| <= |builders| && i != j
      ensures ApartFromBuilder(builders[i], builders[j])
    {
      assert old(BuilderOk(schema, empty, repr, builders[i], store.builders[i]));
      assert old(BuilderOk(schema, empty, repr, builders[j], store.builders[j]));
      assert old(ApartFromBuilder(builders[i], builders[j]));
    }

    twostate lemma OldMessageApart(new i: nat, new j: nat)
      requires old(Valid()) && Grown(old(repr)) && i < |old(builders)| <= |builders| && j < |old(messages)| <= |messages|
      ensures ApartFromMessage(builders[i], messages[j])
    {
      assert old(BuilderOk(schema, empty, repr, builders[i], store.builders[i]));
      assert old(MessageOk(schema, repr, messages[j], store.messages[j]));
      assert old(ApartFromMessage(builders[i], messages[j]));
    }

    /** What was there before is still as it should be. */
    twostate lemma OldKept()
      requires old(Valid()) && Grown(old(repr))
      requires |builders| == |store.builders| && |messages| == |store.messages|
      ensures forall i | 0 <= i < |old(builders)| :: BuilderOk(schema, empty, repr, builders[i], store.builders[i])
      ensures forall j | 0 <= j < |old(messages)| :: MessageOk(schema, repr, messages[j], store.messages[j])
      ensures forall i, j | 0 <= i < |old(builders)| && 0 <= j < |old(builders)| && i != j ::
                ApartFromBuilder(builders[i], builders[j])
      ensures forall i, j | 0 <= i < |old(builders)| && 0 <= j < |old(messages)| ::
                ApartFromMessage(builders[i], messages[j])
    {
      forall i | 0 <= i < |old(builders)|
        ensures BuilderOk(schema, empty, repr, builders[i], store.builders[i])
      {
        OldBuilderKept(i);
      }
      forall j | 0 <= j < |old(messages)|
        ensures MessageOk(schema, repr, messages[j], store.messages[j])
      {
        OldMessageKept(j);
      }
      forall i, j | 0 <= i < |old(builders)| && 0 <= j < |old(builders)| && i != j
        ensures ApartFromBuilder(builders[i], builders[j])
      {
        OldBuildersApart(i, j);
      }
      forall i, j | 0 <= i < |old(builders)| && 0 <= j < |old(messages)|
        ensures ApartFromMessage(builders[i], messages[j])
      {
        OldMessageApart(i, j);
      }
    }

    twostate lemma ValidWithMessage(new m: StateMessage)
      requires old(Valid()) && Grown(old(repr)) && builders == old(builders) && messages == old(messages) + [m]
      requires |builders| == |store.builders| && |messages| == |store.messages|
      requires MessageOk(schema, repr, m, Last(store.messages))
      requires forall i | 0 <= i < |builders| :: ApartFromMessage(builders[i], m)
      ensures Valid()
    {
      OldKept();
    }

    method AddMessage(m: StateMessage, ghost v: Message)
      requires Valid() && m.Valid(schema) && m.View() == v && OutOfReach(m)
      modifies this`messages, this`store, this`repr
      ensures Valid() && repr == old(repr) + PartsOfMessage(m) && messages == old(messages) + [m]
      ensures store == old(store).(messages := old(store).messages + [v])
    {
      OutOfReachOfAll(m);
      messages := messages + [m];
      store := store.(messages := store.messages + [v]);
      repr := repr + PartsOfMessage(m);
      assert MessageOk(schema, repr, m, v);
      ValidWithMessage(m);
    }

    twostate lemma ValidWithBuilder(new b: Builder)
      requires old(Valid()) && Grown(old(repr)) && builders == old(builders) + [b] && messages == old(messages)
      requires |builders| == |store.builders| && |messages| == |store.messages|
      requires BuilderOk(schema, empty, repr, b, Last(store.builders)) && b !in old(repr)
      requires b.vt == empty && b.inputs == null && b.outputs == null
      ensures Valid()
    {
      OldKept();
      forall i | 0 <= i < |old(builders)|
        ensures ApartFromBuilder(builders[i], b) && ApartFromBuilder(b, builders[i])
      {
        assert old(BuilderOk(schema, empty, repr, builders[i], store.builders[i]));
      }
    }

    method AddBuilder(b: Builder, ghost v: Message)
      requires Valid() && BuilderOk(schema, empty, repr + PartsOf(b), b, v) && this !in PartsOf(b)
      requires b !in repr && b.vt == empty && b.inputs == null && b.outputs == null
      modifies this`builders, this`store, this`repr
      ensures Valid() && repr == old(repr) + PartsOf(b)
      ensures store == old(store).(builders := old(store).builders + [v])
    {
      builders := builders + [b];
      store := store.(builders := store.builders + [v]);
      repr := repr + PartsOf(b);
      ValidWithBuilder(b);
    }

    /** newBuilder */
    method Created()
      requires Valid()
      modifies this
      ensures Valid() && fresh(repr - old(repr))
      ensures store == CallValue(schema, old(store), NewBuilder)
      ensures old(messages) <= messages
    {
      var b := new Builder(schema, empty);
      AddBuilder(b, DEFAULT);
    }

    /** toBuilder: an empty builder that merges the message. */
    method Copied(j: nat)
      requires Valid() && j < |messages|
      modifies this, repr
      ensures Valid() && fresh(repr - old(repr))
      ensures store == CallValue(schema, old(store), ToBuilder(j))
      ensures old(messages) <= messages
    {
      MergeIdentity(store.messages[j]);
      Created();
      Merged(|builders| - 1, j);
    }

    method ReadOne(bs: bytes) returns (m: StateMessage?)
      requires !empty.mutable && empty.elems == []
      ensures if Parse(schema, bs).None? then m == null
              else && m != null && fresh(m) && m.Valid(schema) && m.View() == Parse(schema, bs).value
                   && fresh(PartsOfMessage(m) - {empty})
    {
      var input := new Parsing.CodedInput(bs);
      var parsed := Parsing.ParsePartialFrom(schema, input);
      m := null;
      if parsed.Some? {
        ParseFromCanonical(schema, DEFAULT, bs);
        m := new StateMessage.Parsed(schema, empty, parsed.value);
      }
    }

    /** parseFrom: a malformed input makes no message. */
    method Read(bs: bytes)
      requires Valid()
      modifies this
      ensures Valid() && fresh(repr - old(repr))
      ensures store == CallValue(schema, old(store), ParseMessage(bs))
      ensures old(messages) <= messages
    {
      var m := ReadOne(bs);
      if m != null {
        AddMessage(m, m.View());
      }
    }

    method BuildOne(b: Builder, ghost v: Message) returns (m: StateMessage)
      requires BuilderOk(schema, empty, repr, b, v)
      modifies b`bits, b.Owned()
      ensures BuilderOk(schema, empty, repr, b, v) && b.PartsKeptOrFresh(empty)
      ensures fresh(m) && m.Valid(schema) && m.View() == v
      ensures WritableMap(m.inputs) == {} == WritableMap(m.outputs)
      ensures fresh(PartsOfMessage(m) - repr)
    {
      m := b.Build();
    }

    method BuildRecorded(k: nat) returns (m: StateMessage)
      requires Valid() && k < |builders|
      modifies builders[k], builders[k].Owned()
      ensures Valid() && fresh(m) && m.Valid(schema) && m.View() == store.builders[k]
      ensures WritableMap(m.inputs) == {} == WritableMap(m.outputs) && fresh(PartsOfMessage(m) - repr)
    {
      assert BuilderOk(schema, empty, repr, builders[k], store.builders[k]);
      m := BuildOne(builders[k], store.builders[k]);
      assert repr == repr + PartsOf(builders[k]);
      ValidAfterWrite(k, store.builders[k], empty);
    }

    /** build: the new message shares the builder's parts, and from now on neither side may write them. */
    method Built(k: nat)
      requires Valid() && k < |builders|
      modifies this, repr
      ensures Valid() && fresh(repr - old(repr))
      ensures store == CallValue(schema, old(store), BuildMessage(k))
      ensures old(messages) <= messages
    {
      assert BuilderOk(schema, empty, repr, builders[k], store.builders[k]);
      var m := BuildRecorded(k);
      AddMessage(m, store.builders[k]);
    }

    method Perform(c: Call)
      requires Valid() && Callable(schema, |builders|, |messages|, c)
      modifies this, repr
      ensures Valid() && fresh(repr - old(repr))
      ensures store == CallValue(schema, old(store), c)
      ensures old(messages) <= messages
    {
      match c
      case NewBuilder => Created();
      case ToBuilder(j) => Copied(j);
      case EditBuilder(k, e) => Edited(k, e);
      case MergeMessage(k, j) => Merged(k, j);
      case BuildMessage(k) => Built(k);
      case ParseMessage(bs) => Read(bs);
    }

    /** Any interleaving of calls: the shared heap shows what the unshared store shows. */
    method RunAll(calls: seq<Call>)
      requires Valid()
      modifies this, repr
      ensures Valid() && fresh(repr - old(repr))
      ensures store == RunValue(schema, old(store), calls)
      ensures old(messages) <= messages
    {
      var i := 0;
      while i < |calls|
        invariant 0 <= i <= |calls|
        invariant Valid() && fresh(repr - old(repr))
        invariant RunValue(schema, old(store), calls) == RunValue(schema, store, calls[i..])
        invariant old(messages) <= messages
      {
        assert calls[i..][0] == calls[i] && calls[i..][1..] == calls[i + 1..];
        if Callable(schema, |builders|, |messages|, calls[i]) {
          Perform(calls[i]);
        }
        i := i + 1;
      }
    }

    /** Isolation: whatever is called afterwards, a message made before keeps its value. */
    method Run(calls: seq<Call>)
      requires Valid()
      modifies this, repr
      ensures Valid() && fresh(repr - old(repr))
      ensures store == RunValue(schema, old(store), calls)
      ensures forall m <- old(messages) :: m.View() == old(m.View())
    {
      RunAll(calls);
      MessagesNeverChange(schema, old(store), calls);
      forall m | m in old(messages)
        ensures m.View() == old(m.View())
      {
        var j :| 0 <= j < |old(messages)| && old(messages)[j] == m;
        assert old(MessageOk(schema, repr, messages[j], store.messages[j]));
        assert MessageOk(schema, repr, messages[j], store.messages[j]);
      }
    }
  }
}
