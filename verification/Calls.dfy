/**
 What each client call means, in plain words: which builder or message it changes,
 which field of it, and that everything else stays.
 */
module Calls {
  import opened Basics
  import opened Wire
  import opened OperatorState
  import opened CodecProofs
  import opened Builders
  import opened Sharing

  // ---------- Runs ----------

  lemma OneCall(s: Schema, st: Store, c: Call)
    ensures RunValue(s, st, [c]) == StepValue(s, st, c)
  {
    assert [c][1..] == [];
    assert RunValue(s, StepValue(s, st, c), []) == StepValue(s, st, c);
  }

  /** A run is its calls, one after the other. */
  lemma {:induction false} RunInTwoParts(s: Schema, st: Store, a: seq<Call>, b: seq<Call>)
    ensures RunValue(s, st, []) == st
    ensures RunValue(s, st, a + b) == RunValue(s, RunValue(s, st, a), b)
    decreases |a|
  {
    if a == [] {
      assert a + b == b;
    } else {
      assert (a + b)[1..] == a[1..] + b;
      RunInTwoParts(s, StepValue(s, st, a[0]), a[1..], b);
    }
  }

  // ---------- Builders and messages ----------

  /** newBuilder: nothing set. */
  lemma NewBuilderSays(s: Schema, st: Store)
    ensures RunValue(s, st, [NewBuilder]) ==
            Store(st.builders + [Message(None, [], map[], map[], None, None, map[])], st.messages)
  {
    OneCall(s, st, NewBuilder);
  }

  lemma ToBuilderSays(s: Schema, st: Store, j: nat)
    ensures RunValue(s, st, [ToBuilder(j)]) ==
            if j < |st.messages| then Store(st.builders + [st.messages[j]], st.messages) else st
  {
    OneCall(s, st, ToBuilder(j));
  }

  lemma BuildSays(s: Schema, st: Store, b: nat)
    ensures RunValue(s, st, [BuildMessage(b)]) ==
            if b < |st.builders| then Store(st.builders, st.messages + [st.builders[b]]) else st
  {
    OneCall(s, st, BuildMessage(b));
  }

  lemma ParseSays(s: Schema, st: Store, bs: bytes)
    ensures RunValue(s, st, [ParseMessage(bs)]) ==
            if Parse(s, bs).Some? then Store(st.builders, st.messages + [Parse(s, bs).value]) else st
  {
    OneCall(s, st, ParseMessage(bs));
  }

  /** mergeFrom: every field of the builder, and nothing else. */
  lemma MergeMessageSays(s: Schema, st: Store, b: nat, j: nat)
    requires b < |st.builders| && j < |st.messages|
    ensures var r := RunValue(s, st, [MergeMessage(b, j)]);
            var x, y := st.builders[b], st.messages[j];
            && r.messages == st.messages && |r.builders| == |st.builders|
            && (forall i :: 0 <= i < |st.builders| && i != b ==> r.builders[i] == st.builders[i])
            && r.builders[b].scalar == (if y.scalar.Some? then y.scalar else x.scalar)
            && r.builders[b].opType == (if y.opType.Some? then y.opType else x.opType)
            && r.builders[b].id == (if y.id.Some? then y.id else x.id)
            && r.builders[b].vt == x.vt + y.vt
            && (forall k :: k in r.builders[b].inputs <==> k in x.inputs || k in y.inputs)
            && (forall k <- r.builders[b].inputs :: r.builders[b].inputs[k] == if k in y.inputs then y.inputs[k] else x.inputs[k])
            && (forall k :: k in r.builders[b].outputs <==> k in x.outputs || k in y.outputs)
            && (forall k <- r.builders[b].outputs ::
                  r.builders[b].outputs[k] == if k in y.outputs then y.outputs[k] else x.outputs[k])
            && (forall t :: t in r.builders[b].unknown <==> t in x.unknown || t in y.unknown)
            && (forall t <- r.builders[b].unknown ::
                  r.builders[b].unknown[t] ==
                    (if t in x.unknown then x.unknown[t] else []) + (if t in y.unknown then y.unknown[t] else []))
  {
    OneCall(s, st, MergeMessage(b, j));
    MergeSays(st.builders[b], st.messages[j]);
  }

  /** A merge that names something not made yet, and an edit of such a builder, leave everything as it is. */
  lemma NothingToCall(s: Schema, st: Store, b: nat, j: nat, e: Edit)
    ensures b >= |st.builders| || j >= |st.messages| ==> RunValue(s, st, [MergeMessage(b, j)]) == st
    ensures b >= |st.builders| ==> RunValue(s, st, [EditBuilder(b, e)]) == st
  {
    OneCall(s, st, MergeMessage(b, j));
    OneCall(s, st, EditBuilder(b, e));
  }

  // ---------- Edits ----------

  /** An edit changes one builder and no message. */
  lemma EditSays(s: Schema, st: Store, b: nat, e: Edit)
    requires b < |st.builders|
    ensures var r := RunValue(s, st, [EditBuilder(b, e)]);
            && r.messages == st.messages && |r.builders| == |st.builders|
            && forall i :: 0 <= i < |st.builders| && i != b ==> r.builders[i] == st.builders[i]
  {
    OneCall(s, st, EditBuilder(b, e));
  }

  /** The builder after one edit. */
  function AfterEdit(s: Schema, st: Store, b: nat, e: Edit): (r: Message)
    requires b < |st.builders|
    ensures |RunValue(s, st, [EditBuilder(b, e)]).builders| == |st.builders|
    ensures r == RunValue(s, st, [EditBuilder(b, e)]).builders[b]
  {
    EditSays(s, st, b, e);
    RunValue(s, st, [EditBuilder(b, e)]).builders[b]
  }

  /** The message type has to declare the field. */
  lemma UndeclaredSays(s: Schema, st: Store, b: nat, e: Edit)
    requires b < |st.builders|
    requires if e.SetId? || e.ClearId? then !s.hasId
             else !s.hasCounts && (e.SetType? || e.ClearType? || e.PutInputs? || e.RemoveInputs? || e.PutOutputs? || e.RemoveOutputs?)
    ensures RunValue(s, st, [EditBuilder(b, e)]) == st
  {
    OneCall(s, st, EditBuilder(b, e));
  }

  /** Fields 1, 5 and 6. */
  lemma OptionalFieldsSay(s: Schema, st: Store, b: nat, i: int32)
    requires b < |st.builders|
    ensures var m := st.builders[b];
            && AfterEdit(s, st, b, SetScalar(i)) == m.(scalar := Some(i))
            && AfterEdit(s, st, b, ClearScalar) == m.(scalar := None)
            && (s.hasCounts ==>
                  && AfterEdit(s, st, b, SetType(i)) == m.(opType := Some(i))
                  && AfterEdit(s, st, b, ClearType) == m.(opType := None))
            && (s.hasId ==>
                  && AfterEdit(s, st, b, SetId(i)) == m.(id := Some(i))
                  && AfterEdit(s, st, b, ClearId) == m.(id := None))
  {
    OneCall(s, st, EditBuilder(b, SetScalar(i)));
    OneCall(s, st, EditBuilder(b, ClearScalar));
    OneCall(s, st, EditBuilder(b, SetType(i)));
    OneCall(s, st, EditBuilder(b, ClearType));
    OneCall(s, st, EditBuilder(b, SetId(i)));
    OneCall(s, st, EditBuilder(b, ClearId));
  }

  /** Field 2. */
  lemma ListSays(s: Schema, st: Store, b: nat, index: int, i: int32, xs: seq<int32>)
    requires b < |st.builders|
    ensures var m, r := st.builders[b], AfterEdit(s, st, b, SetVt(index, i));
            && r == m.(vt := r.vt) && |r.vt| == |m.vt|
            && forall j :: 0 <= j < |m.vt| ==> r.vt[j] == if j == index then i else m.vt[j]
    ensures AfterEdit(s, st, b, AddAllVt(xs)) == st.builders[b].(vt := st.builders[b].vt + xs)
    ensures AfterEdit(s, st, b, ClearVt) == st.builders[b].(vt := [])
  {
    OneCall(s, st, EditBuilder(b, SetVt(index, i)));
    OneCall(s, st, EditBuilder(b, AddAllVt(xs)));
    OneCall(s, st, EditBuilder(b, ClearVt));
  }

  /** Putting into field 3: the new entries override, the others stay. */
  lemma PutInputsSays(s: Schema, st: Store, b: nat, c: Counts)
    requires b < |st.builders| && s.hasCounts
    ensures var m, r := st.builders[b], AfterEdit(s, st, b, PutInputs(c));
            && r == m.(inputs := r.inputs)
            && (forall k :: k in r.inputs <==> k in m.inputs || k in c)
            && forall k <- r.inputs :: r.inputs[k] == if k in c then c[k] else m.inputs[k]
  {
    OneCall(s, st, EditBuilder(b, PutInputs(c)));
  }

  /** Removing from field 3: exactly the keys named are gone. */
  lemma RemoveInputsSays(s: Schema, st: Store, b: nat, keys: set<int32>)
    requires b < |st.builders| && s.hasCounts
    ensures var m, r := st.builders[b], AfterEdit(s, st, b, RemoveInputs(keys));
            && r == m.(inputs := r.inputs)
            && (forall k :: k in r.inputs <==> k in m.inputs && k !in keys)
            && forall k <- r.inputs :: r.inputs[k] == m.inputs[k]
  {
    OneCall(s, st, EditBuilder(b, RemoveInputs(keys)));
  }

  /** Putting into field 4. */
  lemma PutOutputsSays(s: Schema, st: Store, b: nat, c: Counts)
    requires b < |st.builders| && s.hasCounts
    ensures var m, r := st.builders[b], AfterEdit(s, st, b, PutOutputs(c));
            && r == m.(outputs := r.outputs)
            && (forall k :: k in r.outputs <==> k in m.outputs || k in c)
            && forall k <- r.outputs :: r.outputs[k] == if k in c then c[k] else m.outputs[k]
  {
    OneCall(s, st, EditBuilder(b, PutOutputs(c)));
  }

  /** Removing from field 4. */
  lemma RemoveOutputsSays(s: Schema, st: Store, b: nat, keys: set<int32>)
    requires b < |st.builders| && s.hasCounts
    ensures var m, r := st.builders[b], AfterEdit(s, st, b, RemoveOutputs(keys));
            && r == m.(outputs := r.outputs)
            && (forall k :: k in r.outputs <==> k in m.outputs && k !in keys)
            && forall k <- r.outputs :: r.outputs[k] == m.outputs[k]
  {
    OneCall(s, st, EditBuilder(b, RemoveOutputs(keys)));
  }

  /** Unknown fields are replaced as a whole, and clear leaves nothing set. */
  lemma UnknownAndClearSay(s: Schema, st: Store, b: nat, u: UnknownFields)
    requires b < |st.builders|
    ensures AfterEdit(s, st, b, SetUnknown(u)) == st.builders[b].(unknown := u)
    ensures AfterEdit(s, st, b, Clear) == Message(None, [], map[], map[], None, None, map[])
  {
    OneCall(s, st, EditBuilder(b, SetUnknown(u)));
    OneCall(s, st, EditBuilder(b, Clear));
  }
}
