/**
 A captured operator state as a node of the causal graph: pointers to the
 neighbouring states of the same operator and happens-before edges to others.
 The causal test is a parameter, so everything holds for any such test.
 */
module StateNodes {
  import opened Basics
  import opened VectorTimeStamps
  import opened Chain

  type CausalTest = (seq<int32>, seq<int32>) -> bool

  class StateNode {
    const operatorId: int
    const stamp: VectorTimeStamp
    var parent: StateNode?
    var child: StateNode?
    var happensBefore: StateNode?
    var happensAfter: seq<StateNode>
    var isOrdered: bool

    constructor (operatorId: int, stamp: VectorTimeStamp, isOrdered: bool)
      ensures this.operatorId == operatorId && this.stamp == stamp && this.isOrdered == isOrdered
      ensures parent == null && child == null && happensBefore == null && happensAfter == []
    {
      this.operatorId, this.stamp, this.isOrdered := operatorId, stamp, isOrdered;
      parent, child, happensBefore, happensAfter := null, null, null, [];
    }

    /** setParent: puts `n` in front of this node.  The new node's own parent stays unset. */
    method SetParent(n: StateNode, ghost all: set<StateNode>)
      requires this in all && n in all && (parent != null ==> parent in all)
      modifies all`parent, all`child, this`isOrdered
      ensures PointersOf(all) == ParentSet(old(PointersOf(all)), this, n)
      ensures EdgesOf(all) == old(EdgesOf(all))
    {
      AssignParent(n, all);
    }

    method AssignParent(n: StateNode, ghost all: set<StateNode>)
      requires this in all && n in all && (parent != null ==> parent in all)
      modifies all`parent, all`child, this`isOrdered
      ensures forall m <- all :: m.parent == if m == this then n else old(m.parent)
      ensures forall m <- all :: m.child == if m == n then this else if m == old(parent) then n else old(m.child)
      ensures isOrdered == stamp.IsNextTick(n.stamp)
    {
      var isOrdered := stamp.IsNextTick(n.stamp);
      if parent != null {
        parent.child := n;
      }
      parent := n;
      n.child := this;
      this.isOrdered := isOrdered;
    }

    /** orderStateNode: walks down the children to the place of `n`. */
    method OrderStateNode(test: CausalTest, n: StateNode, ghost all: set<StateNode>, ghost c: seq<Link<StateNode>>)
      returns (p: StateNode?)
      requires n in all && Walkable(PointersOf(all), c, n) && c[0].item == this && forall l <- c :: l.item in all
      requires EdgesInside(EdgesOf(all)) && ParentsInside(PointersOf(all))
      modifies all
      ensures PointersOf(all) == PointersAfter(old(PointersOf(all)), c, n)
      ensures EdgesOf(all) == EdgesAfter(test, old(EdgesOf(all)), c, n)
      ensures p == parent
      decreases |c|, 1
    {
      if stamp.IsEarlierTick(n.stamp) {
        if !isOrdered {
          assert ParentInside(PointersOf(all), this);
          SetParent(n, all);
        }
      } else if stamp.IsLaterTick(n.stamp) {
        AddDescendant(test, n, all, c);
      }
      p := parent;
    }

    method AddDescendant(test: CausalTest, n: StateNode, ghost all: set<StateNode>, ghost c: seq<Link<StateNode>>)
      requires n in all && Walkable(PointersOf(all), c, n) && c[0].item == this && forall l <- c :: l.item in all
      requires EdgesInside(EdgesOf(all)) && ParentsInside(PointersOf(all))
      requires stamp.IsLaterTick(n.stamp)
      modifies all
      ensures PointersOf(all) == PointersAfter(old(PointersOf(all)), c, n)
      ensures EdgesOf(all) == EdgesAfter(test, old(EdgesOf(all)), c, n)
      decreases |c|, 0
    {
      TakeOverEdges(test, n, all);
      if child == null {
        AppendChild(n, all);
        assert c[1..] == [];
      } else {
        var _ := child.OrderStateNode(test, n, all, c[1..]);
      }
    }

    method AppendChild(n: StateNode, ghost all: set<StateNode>)
      requires this in all && n in all && this != n
      modifies this`child, n`parent
      ensures PointersOf(all) == ChildAppended(old(PointersOf(all)), this, n)
      ensures EdgesOf(all) == old(EdgesOf(all))
    {
      child := n;
      n.parent := this;
    }

    /** notifyOperatorStateNode: walks down the causally earlier children and leaves an edge to `n`
        unless the vectors there are concurrent. */
    method NotifyStateNode(test: CausalTest, n: StateNode, ghost all: set<StateNode>, ghost c: seq<Link<StateNode>>)
      requires n in all && Walkable(PointersOf(all), c, n) && c[0].item == this && forall l <- c :: l.item in all
      modifies all`happensAfter, all`happensBefore
      ensures PointersOf(all) == old(PointersOf(all))
      ensures EdgesOf(all) == EdgesNotified(test, old(EdgesOf(all)), c, n)
      decreases |c|
    {
      if child != null && test(child.stamp.vt, n.stamp.vt) {
        NotifiedFurther(test, EdgesOf(all), c, n);
        child.NotifyStateNode(test, n, all, c[1..]);
      } else {
        NotifiedHere(test, EdgesOf(all), c, n);
        var concurrent := IsConcurrent(stamp.vt, n.stamp.vt);
        if !concurrent {
          PutBefore(n, all);
        }
      }
    }

    /** The loop of addDescendant: `n` takes over the edges that lead causally after it. */
    method TakeOverEdges(test: CausalTest, n: StateNode, ghost all: set<StateNode>)
      requires this in all && n in all && this != n && EdgesInside(EdgesOf(all))
      modifies all`happensAfter, all`happensBefore
      ensures EdgesOf(all) == EdgesTakenOver(test, old(EdgesOf(all)), this, n)
      ensures PointersOf(all) == old(PointersOf(all))
    {
      ghost var hs, e := happensAfter, EdgesOf(all);
      for j := 0 to |happensAfter|
        invariant happensAfter == hs
        invariant EdgesOf(all) == WithEdges(e, n, CausallyAfter(test, n.stamp.vt, hs[..j]))
      {
        var h := happensAfter[j];
        assert h in all;
        NextTaken(test, e, n, hs, j);
        if test(n.stamp.vt, h.stamp.vt) {
          n.PutBefore(h, all);
        }
      }
      assert hs[..|hs|] == hs;
    }

    /** calculateConsistentCut: follows happensBefore, cancelling at unordered states.  `stack` is the number of
        calls that still fit on the stack; without `ok` there was one call more. */
    method CalculateConsistentCut(context: CutContext, stack: nat, ghost all: set<StateNode>,
                                  ghost s: map<StateNode, Pointers>, ghost e: map<StateNode, Edges>)
      returns (ok: bool)
      requires this in all && EdgesOk(e) && s == PointersOf(all) && e == EdgesOf(all)
      modifies context
      ensures CutEnds(s, e, this, stack, old(context.Value()), context.Value(), ok)
      decreases Rank(this)
    {
      ghost var before := context.Value();
      if stack == 0 {
        CutEndsAtOnce(s, e, this, before);
        return false;
      }
      context.Enter(this);
      ghost var entered := context.Value();
      ok := true;
      if happensBefore == null {
        CutEndsHere(s, e, this, stack, before, entered);
      } else {
        BeforeIsUpstream(e, this);
        SomeOtherUpstream(operatorId, happensBefore.operatorId);
        ok := SearchOthers(context, stack - 1);
        ghost var searched := context.Value();
        if ok {
          ok := happensBefore.CalculateConsistentCut(context, stack - 1, all, s, e);
          CutEndsUpstream(s, e, this, stack, before, searched, context.Value(), ok);
        } else {
          CutEndsSearching(s, e, this, stack, before, searched);
        }
      }
    }

    /** The loop over the other upstream operators: each is put with what the search for it found. */
    method SearchOthers(context: CutContext, stack: nat) returns (ok: bool)
      requires happensBefore != null
      modifies context`cut, context`latest
      ensures var others := Upstream(operatorId) - {happensBefore.operatorId};
              && (ok <==> others == {} || (stack > 0 && parent == null))
              && Searched(context.cut, old(context.cut), if ok then others else {})
    {
      var operators := CausalUpstreamDependencies(operatorId);
      operators := operators - {happensBefore.operatorId};
      ghost var done := {};
      var left := operators;
      ok := true;
      while left != {}
        invariant left !! done && left + done == operators
        invariant done != {} ==> stack > 0 && parent == null
        invariant Searched(context.cut, old(context.cut), done)
        decreases left
      {
        var u :| u in left;
        ok := FindLatestHappensBefore(u, context, stack);
        if !ok {
          break;
        }
        context.PutLatest(u);
        left, done := left - {u}, done + {u};
      }
    }

    /** findLatestHappensBeforeForOperator: with a parent, the call repeats itself on this very node. */
    method FindLatestHappensBefore(operatorId: int, context: CutContext, stack: nat) returns (ok: bool)
      modifies context`latest
      ensures ok <==> stack > 0 && parent == null
      ensures ok ==> context.latest == Some(Initial(operatorId))
      decreases stack
    {
      if stack == 0 {
        return false;
      }
      if happensBefore != null && happensBefore.operatorId == operatorId {
        context.latest := Some(Captured(happensBefore));
      }
      if parent == null {
        context.latest := Some(Initial(operatorId));
        ok := true;
      } else {
        ok := FindLatestHappensBefore(operatorId, context, stack - 1);
      }
    }

    method PutBefore(h: StateNode, ghost all: set<StateNode>)
      requires this in all && h in all
      modifies this`happensAfter, h`happensBefore
      ensures happensAfter == old(happensAfter) + [h] && h.happensBefore == this
      ensures EdgesOf(all) == WithEdge(old(EdgesOf(all)), this, h)
    {
      ghost var e := EdgesOf(all);
      happensAfter := happensAfter + [h];
      h.happensBefore := this;
      assert IsWithEdge(EdgesOf(all), e, this, h);
    }
  }

  /** A node in the cut: one that was captured, or the initial state of an operator. */
  datatype Entry = Captured(node: StateNode) | Initial(operatorId: int)

  datatype Gathered = Gathered(visited: seq<StateNode>, cut: map<int, Entry>, cancelled: bool)

  class CutContext {
    var visited: seq<StateNode>
    var cut: map<int, Entry>
    var latest: Option<Entry>
    var cancelled: bool

    constructor ()
      ensures Value() == Gathered([], map[], false)
    {
      visited, cut, latest, cancelled := [], map[], None, false;
    }

    ghost function Value(): Gathered
      reads this
    {
      Gathered(visited, cut, cancelled)
    }

    method Cancel()
      modifies this`cancelled
      ensures cancelled
    {
      cancelled := true;
    }

    /** cancel for a state that is not ordered, then putOperatorStateNode */
    method Enter(m: StateNode)
      modifies this`visited, this`cut, this`cancelled
      ensures Value() == Gathered(old(visited) + [m], old(cut)[m.operatorId := Captured(m)], old(cancelled) || !m.isOrdered)
    {
      if !m.isOrdered {
        cancelled := true;
      }
      visited, cut := visited + [m], cut[m.operatorId := Captured(m)];
    }

    /** putOperatorStateNode with the latest state found. */
    method PutLatest(operatorId: int)
      requires latest.Some?
      modifies this`cut
      ensures cut == old(cut)[operatorId := latest.value]
    {
      cut := cut[operatorId := latest.value];
    }
  }

  /** getCausalUpstreamDependencies: every operator with a smaller number. */
  method CausalUpstreamDependencies(operatorId: int) returns (operators: set<int>)
    ensures operators == Upstream(operatorId)
  {
    operators := {};
    var i := operatorId - 1;
    while i >= 0
      invariant i < operatorId || operatorId <= 0
      invariant operators + Upstream(i + 1) == Upstream(operatorId)
      decreases i
    {
      operators := operators + {i};
      i := i - 1;
    }
  }

  function Upstream(operatorId: int): (operators: set<int>)
    ensures forall j :: j in operators <==> 0 <= j < operatorId
    decreases if operatorId > 0 then operatorId else 0
  {
    if operatorId <= 0 then {} else Upstream(operatorId - 1) + {operatorId - 1}
  }

  /** `after` is `before` with the initial states of `others`. */
  ghost predicate Searched(after: map<int, Entry>, before: map<int, Entry>, others: set<int>) {
    && after.Keys == before.Keys + others
    && forall u <- after :: after[u] == if u in others then Initial(u) else before[u]
  }

  lemma SomeOtherUpstream(operatorId: int, before: int)
    requires 0 <= before < operatorId
    ensures Upstream(operatorId) - {before} != {} <==> operatorId >= 2
  {
    if operatorId >= 2 {
      assert (if before == 0 then 1 else 0) in Upstream(operatorId) - {before};
    }
  }

  // ---------- The chain pointers of a set of nodes, as a value ----------

  datatype Pointers = Pointers(parent: StateNode?, child: StateNode?, isOrdered: bool)

  ghost predicate ShowsPointers(s: map<StateNode, Pointers>, all: set<StateNode>)
    reads all
  {
    s.Keys == all && forall m <- all :: s[m] == Pointers(m.parent, m.child, m.isOrdered)
  }

  lemma PointersShown(all: set<StateNode>)
    ensures exists s :: ShowsPointers(s, all)
  {
    var s: map<StateNode, Pointers> := map[];
    var left := all;
    while left != {}
      invariant left <= all && ShowsPointers(s, all - left)
    {
      var m :| m in left;
      s, left := s[m := Pointers(m.parent, m.child, m.isOrdered)], left - {m};
    }
    assert all - left == all;
  }

  ghost function PointersOf(all: set<StateNode>): (s: map<StateNode, Pointers>)
    reads all
    ensures s.Keys == all
    ensures forall m <- all :: s[m] == Pointers(m.parent, m.child, m.isOrdered)
  {
    PointersShown(all);
    var s :| ShowsPointers(s, all);
    s
  }

  /** `r` is `s` after setParent put `n` in front of `t`. */
  ghost predicate IsParentSet(r: map<StateNode, Pointers>, s: map<StateNode, Pointers>, t: StateNode, n: StateNode)
    requires t in s
  {
    && r.Keys == s.Keys
    && forall m <- s :: r[m] ==
         Pointers(if m == t then n else s[m].parent,
                  if m == n then t else if m == s[t].parent then n else s[m].child,
                  if m == t then t.stamp.IsNextTick(n.stamp) else s[m].isOrdered)
  }

  lemma ParentCanBeSet(s: map<StateNode, Pointers>, t: StateNode, n: StateNode)
    requires t in s && n in s && (s[t].parent != null ==> s[t].parent in s)
    ensures exists r :: IsParentSet(r, s, t, n)
  {
    var s1 := if s[t].parent == null then s else s[s[t].parent := s[s[t].parent].(child := n)];
    var s2 := s1[t := s1[t].(parent := n, isOrdered := t.stamp.IsNextTick(n.stamp))];
    assert IsParentSet(s2[n := s2[n].(child := t)], s, t, n);
  }

  ghost function ParentSet(s: map<StateNode, Pointers>, t: StateNode, n: StateNode): (r: map<StateNode, Pointers>)
    requires t in s && n in s && (s[t].parent != null ==> s[t].parent in s)
    ensures IsParentSet(r, s, t, n)
  {
    ParentCanBeSet(s, t, n);
    var r :| IsParentSet(r, s, t, n);
    r
  }

  ghost function ChildAppended(s: map<StateNode, Pointers>, t: StateNode, n: StateNode): (r: map<StateNode, Pointers>)
    requires t in s && n in s && t != n
    ensures r.Keys == s.Keys
  {
    s[t := s[t].(child := n)][n := s[n].(parent := t)]
  }

  // ---------- The happens-before edges, as a value ----------

  datatype Edges = Edges(before: StateNode?, after: seq<StateNode>)

  ghost predicate ShowsEdges(e: map<StateNode, Edges>, all: set<StateNode>)
    reads all
  {
    e.Keys == all && forall m <- all :: e[m] == Edges(m.happensBefore, m.happensAfter)
  }

  lemma EdgesShown(all: set<StateNode>)
    ensures exists e :: ShowsEdges(e, all)
  {
    var e: map<StateNode, Edges> := map[];
    var left := all;
    while left != {}
      invariant left <= all && ShowsEdges(e, all - left)
    {
      var m :| m in left;
      e, left := e[m := Edges(m.happensBefore, m.happensAfter)], left - {m};
    }
    assert all - left == all;
  }

  ghost function EdgesOf(all: set<StateNode>): (e: map<StateNode, Edges>)
    reads all
    ensures e.Keys == all
    ensures forall m <- all :: e[m] == Edges(m.happensBefore, m.happensAfter)
  {
    EdgesShown(all);
    var e :| ShowsEdges(e, all);
    e
  }

  function CausallyAfter(test: CausalTest, vt: seq<int32>, hs: seq<StateNode>): (r: seq<StateNode>)
    ensures forall h <- r :: h in hs
  {
    if hs == [] then []
    else CausallyAfter(test, vt, Before(hs)) + if test(vt, Last(hs).stamp.vt) then [Last(hs)] else []
  }

  ghost predicate EdgesInside(e: map<StateNode, Edges>) {
    forall m <- e, h <- e[m].after :: h in e
  }

  /** `r` is `e` with an edge from `n` to `h` and back. */
  ghost predicate IsWithEdge(r: map<StateNode, Edges>, e: map<StateNode, Edges>, n: StateNode, h: StateNode) {
    && r.Keys == e.Keys
    && forall m <- e :: r[m] == Edges(if m == h then n else e[m].before, if m == n then e[m].after + [h] else e[m].after)
  }

  lemma EdgeCanBeAdded(e: map<StateNode, Edges>, n: StateNode, h: StateNode)
    requires n in e && h in e
    ensures exists r :: IsWithEdge(r, e, n, h)
  {
    var e1 := e[n := e[n].(after := e[n].after + [h])];
    assert IsWithEdge(e1[h := e1[h].(before := n)], e, n, h);
  }

  /** `n` happens before `h`. */
  ghost function WithEdge(e: map<StateNode, Edges>, n: StateNode, h: StateNode): (r: map<StateNode, Edges>)
    requires n in e && h in e
    ensures IsWithEdge(r, e, n, h) && (EdgesInside(e) ==> EdgesInside(r))
  {
    EdgeCanBeAdded(e, n, h);
    var r :| IsWithEdge(r, e, n, h);
    r
  }

  /** `n` happens before all of `hs`. */
  ghost function WithEdges(e: map<StateNode, Edges>, n: StateNode, hs: seq<StateNode>): (r: map<StateNode, Edges>)
    requires n in e && forall h <- hs :: h in e
    ensures r.Keys == e.Keys && (EdgesInside(e) ==> EdgesInside(r))
  {
    if hs == [] then e else WithEdge(WithEdges(e, n, Before(hs)), n, Last(hs))
  }

  lemma WithOneMore(e: map<StateNode, Edges>, n: StateNode, hs: seq<StateNode>, h: StateNode)
    requires n in e && h in e && forall h <- hs :: h in e
    ensures WithEdges(e, n, hs + [h]) == WithEdge(WithEdges(e, n, hs), n, h)
  {
    assert Before(hs + [h]) == hs && Last(hs + [h]) == h;
  }

  lemma NextTaken(test: CausalTest, e: map<StateNode, Edges>, n: StateNode, hs: seq<StateNode>, j: nat)
    requires n in e && j < |hs| && forall h <- hs :: h in e
    ensures forall h <- CausallyAfter(test, n.stamp.vt, hs[..j]) + CausallyAfter(test, n.stamp.vt, hs[..j + 1]) :: h in e
    ensures var taken := WithEdges(e, n, CausallyAfter(test, n.stamp.vt, hs[..j]));
            WithEdges(e, n, CausallyAfter(test, n.stamp.vt, hs[..j + 1])) ==
              if test(n.stamp.vt, hs[j].stamp.vt) then WithEdge(taken, n, hs[j]) else taken
  {
    var taken := CausallyAfter(test, n.stamp.vt, hs[..j]);
    assert Before(hs[..j + 1]) == hs[..j] && Last(hs[..j + 1]) == hs[j];
    if test(n.stamp.vt, hs[j].stamp.vt) {
      WithOneMore(e, n, taken, hs[j]);
    } else {
      assert taken + [] == taken;
    }
  }

  ghost function EdgesTakenOver(test: CausalTest, e: map<StateNode, Edges>, t: StateNode, n: StateNode)
    : (r: map<StateNode, Edges>)
    requires t in e && n in e && EdgesInside(e)
    ensures r.Keys == e.Keys && EdgesInside(r)
  {
    WithEdges(e, n, CausallyAfter(test, n.stamp.vt, e[t].after))
  }

  // ---------- One walk along a chain ----------

  function LinkOf(n: StateNode, ordered: bool): Link<StateNode> {
    Link(n, n.stamp, ordered, false)
  }

  /** `c` is what one meets walking along the children, and `n` is not among it. */
  ghost predicate Walkable(s: map<StateNode, Pointers>, c: seq<Link<StateNode>>, n: StateNode) {
    && c != []
    && c[0].item in s && c[0].item != n
    && c[0].stamp == c[0].item.stamp && c[0].ordered == s[c[0].item].isOrdered
    && s[c[0].item].child == (if |c| > 1 then c[1].item else null)
    && (|c| > 1 ==> Walkable(s, c[1..], n))
  }

  ghost predicate ParentInside(s: map<StateNode, Pointers>, m: StateNode)
    requires m in s
  {
    s[m].parent != null ==> s[m].parent in s
  }

  ghost predicate ParentsInside(s: map<StateNode, Pointers>) {
    forall m {:trigger ParentInside(s, m)} :: m in s ==> ParentInside(s, m)
  }

  ghost function PointersAfter(s: map<StateNode, Pointers>, c: seq<Link<StateNode>>, n: StateNode): (r: map<StateNode, Pointers>)
    requires n in s && Walkable(s, c, n) && ParentsInside(s)
    ensures r.Keys == s.Keys
    decreases |c|
  {
    assert ParentInside(s, c[0].item);
    if c[0].stamp.IsEarlierTick(n.stamp) then
      if c[0].ordered then s else ParentSet(s, c[0].item, n)
    else if c[0].stamp.IsLaterTick(n.stamp) then
      if |c| == 1 then ChildAppended(s, c[0].item, n) else PointersAfter(s, c[1..], n)
    else s
  }

  /** Every node passed on the way hands over its edges. */
  ghost function EdgesAfter(test: CausalTest, e: map<StateNode, Edges>, c: seq<Link<StateNode>>, n: StateNode)
    : (r: map<StateNode, Edges>)
    requires n in e && EdgesInside(e) && forall l <- c :: l.item in e
    ensures r.Keys == e.Keys && EdgesInside(r)
  {
    if c == [] || !c[0].stamp.IsLaterTick(n.stamp) then e
    else EdgesAfter(test, EdgesTakenOver(test, e, c[0].item, n), c[1..], n)
  }

  // ---------- Notification ----------

  /** How far the walk goes down the chain `c`. */
  function Placement(test: CausalTest, c: seq<Link<StateNode>>, n: StateNode): (k: nat)
    requires c != []
    ensures k < |c|
  {
    if |c| > 1 && test(c[1].stamp.vt, n.stamp.vt) then 1 + Placement(test, c[1..], n) else 0
  }

  /** The end of the longest prefix whose members after the first all pass the causal test. */
  lemma {:induction false} PlacementIsLongestPrefix(test: CausalTest, c: seq<Link<StateNode>>, n: StateNode, k: nat)
    requires k < |c|
    ensures k == Placement(test, c, n) <==>
            && (forall i :: 0 < i <= k ==> test(c[i].stamp.vt, n.stamp.vt))
            && (k + 1 < |c| ==> !test(c[k + 1].stamp.vt, n.stamp.vt))
    decreases |c|
  {
    if |c| > 1 && test(c[1].stamp.vt, n.stamp.vt) {
      if k > 0 {
        PlacementIsLongestPrefix(test, c[1..], n, k - 1);
        assert forall i :: 0 < i <= k - 1 ==> c[1..][i] == c[i + 1];
        assert forall i :: 0 < i <= k ==> i == 1 || c[i] == c[1..][i - 1];
      }
    }
  }

  ghost function EdgesNotified(test: CausalTest, e: map<StateNode, Edges>, c: seq<Link<StateNode>>, n: StateNode)
    : (r: map<StateNode, Edges>)
    requires c != [] && n in e && forall l <- c :: l.item in e
    ensures r.Keys == e.Keys
  {
    var l := c[Placement(test, c, n)];
    if Concurrent(l.stamp.vt, n.stamp.vt) then e else WithEdge(e, l.item, n)
  }

  lemma NotifiedHere(test: CausalTest, e: map<StateNode, Edges>, c: seq<Link<StateNode>>, n: StateNode)
    requires c != [] && n in e && forall l <- c :: l.item in e
    requires |c| > 1 ==> !test(c[1].stamp.vt, n.stamp.vt)
    ensures c[0].item in e
    ensures EdgesNotified(test, e, c, n) ==
            if Concurrent(c[0].stamp.vt, n.stamp.vt) then e else WithEdge(e, c[0].item, n)
  {
    assert c[0] in c;
  }

  lemma NotifiedFurther(test: CausalTest, e: map<StateNode, Edges>, c: seq<Link<StateNode>>, n: StateNode)
    requires |c| > 1 && n in e && forall l <- c :: l.item in e
    requires test(c[1].stamp.vt, n.stamp.vt)
    ensures EdgesNotified(test, e, c, n) == EdgesNotified(test, e, c[1..], n)
  {
    assert c[Placement(test, c, n)] == c[1..][Placement(test, c[1..], n)];
  }

  // ---------- The happens-before path ----------

  /** Edges lead to higher operators, and a happens-before pointer is witnessed by an edge. */
  ghost predicate NodeEdgesOk(e: map<StateNode, Edges>, m: StateNode)
    requires m in e
  {
    && (forall h <- e[m].after :: h in e && 0 <= m.operatorId < h.operatorId)
    && (e[m].before != null ==> e[m].before in e && m in e[e[m].before].after)
  }

  ghost predicate EdgesOk(e: map<StateNode, Edges>) {
    forall m {:trigger NodeEdgesOk(e, m)} :: m in e ==> NodeEdgesOk(e, m)
  }

  lemma EdgesOkInside(e: map<StateNode, Edges>)
    requires EdgesOk(e)
    ensures EdgesInside(e)
  {
    forall m | m in e
      ensures forall h <- e[m].after :: h in e
    {
      assert NodeEdgesOk(e, m);
    }
  }

  function Rank(m: StateNode): nat {
    if m.operatorId > 0 then m.operatorId else 0
  }

  lemma BeforeIsUpstream(e: map<StateNode, Edges>, m: StateNode)
    requires EdgesOk(e) && m in e && e[m].before != null
    ensures e[m].before in e && 0 <= e[m].before.operatorId < m.operatorId
  {
    assert NodeEdgesOk(e, m) && NodeEdgesOk(e, e[m].before);
  }

  /** All nodes along the happens-before pointers, from `m` to the end. */
  ghost function Trail(e: map<StateNode, Edges>, m: StateNode): (t: seq<StateNode>)
    requires m in e && EdgesOk(e)
    ensures t != [] && t[0] == m && forall x <- t :: x in e
    decreases Rank(m)
  {
    if e[m].before == null then [m]
    else
      BeforeIsUpstream(e, m);
      [m] + Trail(e, e[m].before)
  }

  /** Different operators, going strictly upstream. */
  ghost predicate Descending(t: seq<StateNode>) {
    forall i, j :: 0 <= i < j < |t| ==> 0 <= t[j].operatorId < t[i].operatorId
  }

  /** The trail visits each operator at most once, going strictly upstream, so it takes at most one step per operator. */
  lemma {:induction false} TrailVisitsDistinctOperators(e: map<StateNode, Edges>, m: StateNode)
    requires m in e && EdgesOk(e)
    ensures var t := Trail(e, m);
            Descending(t) && |t| <= Rank(m) + 1
    decreases Rank(m)
  {
    if e[m].before != null {
      BeforeIsUpstream(e, m);
      TrailVisitsDistinctOperators(e, e[m].before);
    }
  }

  // ---------- The consistent cut ----------

  /** A search for the states of other operators starts here and never returns. */
  ghost predicate Stuck(s: map<StateNode, Pointers>, e: map<StateNode, Edges>, m: StateNode)
    requires m in s && m in e
  {
    m.operatorId >= 2 && s[m].parent != null && e[m].before != null
  }

  /** How far along `t` the cut gets with a stack of this size. */
  ghost function Reached(s: map<StateNode, Pointers>, e: map<StateNode, Edges>, t: seq<StateNode>, stack: nat): (k: nat)
    requires forall x <- t :: x in s && x in e
    ensures k <= |t|
  {
    if t == [] || stack == 0 then 0 else if Stuck(s, e, t[0]) then 1 else 1 + Reached(s, e, t[1..], stack - 1)
  }

  /** The cut returns. */
  ghost predicate Completes(s: map<StateNode, Pointers>, e: map<StateNode, Edges>, t: seq<StateNode>, stack: nat)
    requires forall x <- t :: x in s && x in e
  {
    |t| <= stack && forall x <- t :: !Stuck(s, e, x)
  }

  function NodeOf(t: seq<StateNode>, operatorId: int): Option<StateNode> {
    if t == [] then None else if t[0].operatorId == operatorId then Some(t[0]) else NodeOf(t[1..], operatorId)
  }

  function EntryOf(cut: map<int, Entry>, operatorId: int): Option<Entry> {
    if operatorId in cut then Some(cut[operatorId]) else None
  }

  /** What a cut along `t` holds for an operator: the node on the trail, or else the initial state if the operator is
      upstream and the trail leads upstream at all. */
  function CutEntry(t: seq<StateNode>, operatorId: int, cut: map<int, Entry>): Option<Entry>
    requires t != []
  {
    var node := NodeOf(t, operatorId);
    if node.Some? then Some(Captured(node.value))
    else if |t| > 1 && 0 <= operatorId < t[0].operatorId then Some(Initial(operatorId))
    else EntryOf(cut, operatorId)
  }

  /** The first node of the operator. */
  lemma {:induction false} NodeOfIs(t: seq<StateNode>, op: int, i: nat)
    requires i < |t| && t[i].operatorId == op && forall j :: 0 <= j < i ==> t[j].operatorId != op
    ensures NodeOf(t, op) == Some(t[i])
  {
    if i > 0 {
      NodeOfIs(t[1..], op, i - 1);
    }
  }

  lemma {:induction false} NoNodeOf(t: seq<StateNode>, op: int)
    requires forall x <- t :: x.operatorId != op
    ensures NodeOf(t, op) == None
  {
    if t != [] {
      NoNodeOf(t[1..], op);
    }
  }

  /** The node of the operator on the trail; where there is none, the initial state for an operator upstream of a first node
      that is not the only one, and what the cut held before for any other. */
  lemma CutEntrySays(t: seq<StateNode>, op: int, cut: map<int, Entry>, i: nat)
    requires t != []
    ensures i < |t| && t[i].operatorId == op && (forall j :: 0 <= j < i ==> t[j].operatorId != op) ==>
              CutEntry(t, op, cut) == Some(Captured(t[i]))
    ensures (forall x <- t :: x.operatorId != op) && |t| > 1 && 0 <= op < t[0].operatorId ==>
              CutEntry(t, op, cut) == Some(Initial(op))
    ensures (forall x <- t :: x.operatorId != op) && !(|t| > 1 && 0 <= op < t[0].operatorId) ==>
              CutEntry(t, op, cut) == if op in cut then Some(cut[op]) else None
  {
    if i < |t| && t[i].operatorId == op && (forall j :: 0 <= j < i ==> t[j].operatorId != op) {
      NodeOfIs(t, op, i);
    }
    if forall x <- t :: x.operatorId != op {
      NoNodeOf(t, op);
    }
  }

  /** Each node of the trail is the one that happened before the previous, and before the last there is none. */
  lemma {:induction false} TrailSays(e: map<StateNode, Edges>, m: StateNode, i: nat)
    requires m in e && EdgesOk(e) && i < |Trail(e, m)|
    ensures var t := Trail(e, m);
            && t[0] == m && t[i] in e
            && e[t[i]].before == if i + 1 < |t| then t[i + 1] else null
    decreases i
  {
    if i > 0 {
      BeforeIsUpstream(e, m);
      TrailSays(e, e[m].before, i - 1);
      assert Trail(e, m)[1..] == Trail(e, e[m].before);
    }
  }

  /** The walk along `t` ends behind the last node, where the stack ends, or at the first node whose search never ends. */
  lemma {:induction false} ReachedSays(s: map<StateNode, Pointers>, e: map<StateNode, Edges>, t: seq<StateNode>, stack: nat)
    requires forall x <- t :: x in s && x in e
    ensures var k := Reached(s, e, t, stack);
            && k <= |t| && k <= stack
            && (forall i :: 0 <= i < k - 1 ==> !(t[i].operatorId >= 2 && s[t[i]].parent != null && e[t[i]].before != null))
            && (k < |t| && k < stack ==>
                  k > 0 && t[k - 1].operatorId >= 2 && s[t[k - 1]].parent != null && e[t[k - 1]].before != null)
  {
    if t != [] && stack > 0 && !Stuck(s, e, t[0]) {
      ReachedSays(s, e, t[1..], stack - 1);
      assert forall i :: 0 <= i < |t| - 1 ==> t[1..][i] == t[i + 1];
      var k := Reached(s, e, t, stack);
      forall i | 0 <= i < k - 1
        ensures !(t[i].operatorId >= 2 && s[t[i]].parent != null && e[t[i]].before != null)
      {
        assert i > 0 ==> t[i] == t[1..][i - 1];
      }
    }
  }

  ghost predicate SomeUnordered(s: map<StateNode, Pointers>, t: seq<StateNode>)
    requires forall x <- t :: x in s
  {
    exists x <- t :: !s[x].isOrdered
  }

  /** What the cut from `m` has visited, starting from `before`. */
  ghost predicate CutVisits(s: map<StateNode, Pointers>, e: map<StateNode, Edges>, m: StateNode, stack: nat,
                            before: Gathered, after: Gathered)
    requires m in e && EdgesOk(e) && s.Keys == e.Keys
  {
    var t := Trail(e, m);
    var seen := t[..Reached(s, e, t, stack)];
    after.visited == before.visited + seen && after.cancelled == (before.cancelled || SomeUnordered(s, seen))
  }

  /** How the cut from `m` ends, starting from `before`. */
  ghost predicate CutEnds(s: map<StateNode, Pointers>, e: map<StateNode, Edges>, m: StateNode, stack: nat,
                          before: Gathered, after: Gathered, ok: bool)
    requires m in e && EdgesOk(e) && s.Keys == e.Keys
  {
    && (ok <==> Completes(s, e, Trail(e, m), stack))
    && CutVisits(s, e, m, stack, before, after)
    && (ok ==> forall op: int :: EntryOf(after.cut, op) == CutEntry(Trail(e, m), op, before.cut))
  }

  /** What the end of a cut means: what it visited, whether it is cancelled, when it returns and what it then holds. */
  lemma CutEndsSays(s: map<StateNode, Pointers>, e: map<StateNode, Edges>, m: StateNode, stack: nat,
                    before: Gathered, after: Gathered, ok: bool, op: int)
    requires m in e && EdgesOk(e) && s.Keys == e.Keys && CutEnds(s, e, m, stack, before, after, ok)
    ensures var t := Trail(e, m);
            var k := Reached(s, e, t, stack);
            && after.visited == before.visited + t[..k]
            && (after.cancelled <==> before.cancelled || exists i :: 0 <= i < k && !s[t[i]].isOrdered)
            && (ok <==> |t| <= stack && forall x <- t :: !(x.operatorId >= 2 && s[x].parent != null && e[x].before != null))
            && (ok ==> (op in after.cut <==> CutEntry(t, op, before.cut).Some?)
                       && (op in after.cut ==> after.cut[op] == CutEntry(t, op, before.cut).value))
  {
    var t := Trail(e, m);
    var seen := t[..Reached(s, e, t, stack)];
    if SomeUnordered(s, seen) {
      var x :| x in seen && !s[x].isOrdered;
      var i :| 0 <= i < |seen| && seen[i] == x;
      assert !s[t[i]].isOrdered;
    }
    if i :| 0 <= i < |seen| && !s[t[i]].isOrdered {
      assert seen[i] in seen;
    }
    assert forall x <- t :: Stuck(s, e, x) <==> x.operatorId >= 2 && s[x].parent != null && e[x].before != null;
    if ok {
      assert EntryOf(after.cut, op) == CutEntry(t, op, before.cut);
    }
  }

  lemma CutEndsAtOnce(s: map<StateNode, Pointers>, e: map<StateNode, Edges>, m: StateNode, before: Gathered)
    requires m in e && EdgesOk(e) && s.Keys == e.Keys
    ensures CutEnds(s, e, m, 0, before, before, false)
  {
    assert before.visited + [] == before.visited;
  }

  ghost predicate Entered(s: map<StateNode, Pointers>, m: StateNode, before: Gathered, after: Gathered)
    requires m in s
  {
    after == Gathered(before.visited + [m], before.cut[m.operatorId := Captured(m)], before.cancelled || !s[m].isOrdered)
  }

  lemma CutEndsHere(s: map<StateNode, Pointers>, e: map<StateNode, Edges>, m: StateNode, stack: nat,
                    before: Gathered, after: Gathered)
    requires m in e && EdgesOk(e) && s.Keys == e.Keys && stack > 0 && e[m].before == null
    requires Entered(s, m, before, after)
    ensures CutEnds(s, e, m, stack, before, after, true)
  {
    var t := [m];
    assert Trail(e, m) == t && t[1..] == [] && t[..1] == t;
    assert SomeUnordered(s, t) <==> !s[m].isOrdered;
    forall op: int
      ensures EntryOf(after.cut, op) == CutEntry(t, op, before.cut)
    {
      assert NodeOf(t[1..], op) == None;
    }
  }

  /** The search failed: for want of a stack or because it never ends. */
  lemma CutEndsSearching(s: map<StateNode, Pointers>, e: map<StateNode, Edges>, m: StateNode, stack: nat,
                         before: Gathered, after: Gathered)
    requires m in e && EdgesOk(e) && s.Keys == e.Keys && stack > 0 && e[m].before != null && m.operatorId >= 2
    requires stack == 1 || s[m].parent != null
    requires after.visited == before.visited + [m] && after.cancelled == (before.cancelled || !s[m].isOrdered)
    ensures CutEnds(s, e, m, stack, before, after, false)
  {
    BeforeIsUpstream(e, m);
    var t := Trail(e, m);
    assert t[1..] == Trail(e, e[m].before);
    assert t[..1] == [m];
    assert SomeUnordered(s, [m]) <==> !s[m].isOrdered;
    assert m in t;
  }

  /** The search is over, and the rest is up to the node that happened before. */
  lemma CutEndsUpstream(s: map<StateNode, Pointers>, e: map<StateNode, Edges>, m: StateNode, stack: nat,
                        before: Gathered, searched: Gathered, after: Gathered, ok: bool)
    requires m in e && EdgesOk(e) && s.Keys == e.Keys && stack > 0 && e[m].before != null && e[m].before in e
    requires m.operatorId >= 2 ==> s[m].parent == null
    requires searched.visited == before.visited + [m] && searched.cancelled == (before.cancelled || !s[m].isOrdered)
    requires Searched(searched.cut, before.cut[m.operatorId := Captured(m)],
                      Upstream(m.operatorId) - {e[m].before.operatorId})
    requires CutEnds(s, e, e[m].before, stack - 1, searched, after, ok)
    ensures CutEnds(s, e, m, stack, before, after, ok)
  {
    UpstreamVisits(s, e, m, stack, before, searched, after);
    UpstreamCompletes(s, e, m, stack);
    if ok {
      forall op: int
        ensures EntryOf(after.cut, op) == CutEntry(Trail(e, m), op, before.cut)
      {
        UpstreamEntry(e, m, before.cut, searched.cut, after.cut, op);
      }
    }
  }

  lemma UpstreamCompletes(s: map<StateNode, Pointers>, e: map<StateNode, Edges>, m: StateNode, stack: nat)
    requires m in e && EdgesOk(e) && s.Keys == e.Keys && stack > 0 && e[m].before != null && e[m].before in e
    requires m.operatorId >= 2 ==> s[m].parent == null
    ensures Completes(s, e, Trail(e, m), stack) <==> Completes(s, e, Trail(e, e[m].before), stack - 1)
  {
    var t, rest := Trail(e, m), Trail(e, e[m].before);
    assert t == [m] + rest;
    assert forall x :: x in t <==> x == m || x in rest;
  }

  lemma UpstreamVisits(s: map<StateNode, Pointers>, e: map<StateNode, Edges>, m: StateNode, stack: nat,
                       before: Gathered, searched: Gathered, after: Gathered)
    requires m in e && EdgesOk(e) && s.Keys == e.Keys && stack > 0 && e[m].before != null && e[m].before in e
    requires m.operatorId >= 2 ==> s[m].parent == null
    requires searched.visited == before.visited + [m] && searched.cancelled == (before.cancelled || !s[m].isOrdered)
    requires CutVisits(s, e, e[m].before, stack - 1, searched, after)
    ensures CutVisits(s, e, m, stack, before, after)
  {
    var t, rest := Trail(e, m), Trail(e, e[m].before);
    assert t == [m] + rest && t[1..] == rest;
    var k := Reached(s, e, rest, stack - 1);
    assert Reached(s, e, t, stack) == 1 + k;
    assert t[..1 + k] == [m] + rest[..k];
    assert before.visited + [m] + rest[..k] == before.visited + t[..1 + k];
    assert forall x :: x in t[..1 + k] <==> x == m || x in rest[..k];
  }

  lemma UpstreamEntry(e: map<StateNode, Edges>, m: StateNode, before: map<int, Entry>, searched: map<int, Entry>,
                      after: map<int, Entry>, op: int)
    requires m in e && EdgesOk(e) && e[m].before != null && e[m].before in e
    requires Searched(searched, before[m.operatorId := Captured(m)], Upstream(m.operatorId) - {e[m].before.operatorId})
    requires EntryOf(after, op) == CutEntry(Trail(e, e[m].before), op, searched)
    ensures EntryOf(after, op) == CutEntry(Trail(e, m), op, before)
  {
    BeforeIsUpstream(e, m);
    var t, rest := Trail(e, m), Trail(e, e[m].before);
    assert t == [m] + rest && t[1..] == rest && rest[0] == e[m].before;
    if op == m.operatorId {
      TrailIsUpstream(e, e[m].before, op);
    }
  }

  lemma {:induction false} TrailIsUpstream(e: map<StateNode, Edges>, m: StateNode, operatorId: int)
    requires m in e && EdgesOk(e) && m.operatorId < operatorId
    ensures NodeOf(Trail(e, m), operatorId) == None
    decreases Rank(m)
  {
    if e[m].before != null {
      BeforeIsUpstream(e, m);
      TrailIsUpstream(e, e[m].before, operatorId);
      assert Trail(e, m)[1..] == Trail(e, e[m].before);
    } else {
      assert Trail(e, m)[1..] == [];
    }
  }

  /** The cut completes exactly when it visits the whole trail. */
  lemma {:induction false} CutCompletesIffAllVisited(s: map<StateNode, Pointers>, e: map<StateNode, Edges>, m: StateNode,
                                                     stack: nat)
    requires m in e && EdgesOk(e) && s.Keys == e.Keys
    ensures Completes(s, e, Trail(e, m), stack) <==> Reached(s, e, Trail(e, m), stack) == |Trail(e, m)|
    decreases Rank(m)
  {
    var t := Trail(e, m);
    if e[m].before == null {
      assert t == [m] && t[1..] == [];
    } else if stack > 0 {
      BeforeIsUpstream(e, m);
      var rest := Trail(e, e[m].before);
      CutCompletesIffAllVisited(s, e, e[m].before, stack - 1);
      assert t == [m] + rest && t[1..] == rest;
      assert forall x :: x in t <==> x == m || x in rest;
    }
  }

  /** With room for one call per operator the cut completes if and only if no node on the whole trail is downstream of two
      operators, has a happens-before pointer and is not the first of its own operator; then it visits the whole trail. */
  lemma CutCompletesIffNeverStuck(s: map<StateNode, Pointers>, e: map<StateNode, Edges>, m: StateNode, stack: nat)
    requires m in e && EdgesOk(e) && s.Keys == e.Keys && Rank(m) < stack
    ensures Completes(s, e, Trail(e, m), stack) <==> forall x <- Trail(e, m) :: !Stuck(s, e, x)
    ensures Completes(s, e, Trail(e, m), stack) <==> Reached(s, e, Trail(e, m), stack) == |Trail(e, m)|
  {
    TrailVisitsDistinctOperators(e, m);
    CutCompletesIffAllVisited(s, e, m, stack);
  }

  // ---------- Arrivals keep the edges in order ----------

  lemma OneMoreEdgeOk(e: map<StateNode, Edges>, n: StateNode, h: StateNode)
    requires EdgesOk(e) && n in e && h in e && 0 <= n.operatorId < h.operatorId
    ensures EdgesOk(WithEdge(e, n, h))
  {
    var r := WithEdge(e, n, h);
    forall m | m in r
      ensures NodeEdgesOk(r, m)
    {
      assert NodeEdgesOk(e, m);
    }
  }

  lemma {:induction false} MoreEdgesOk(e: map<StateNode, Edges>, n: StateNode, hs: seq<StateNode>)
    requires EdgesOk(e) && n in e
    requires forall h <- hs :: h in e && 0 <= n.operatorId < h.operatorId
    ensures EdgesOk(WithEdges(e, n, hs))
  {
    if hs != [] {
      assert hs == Before(hs) + [Last(hs)];
      assert Last(hs) in hs && 0 <= n.operatorId < Last(hs).operatorId;
      assert forall h <- Before(hs) :: h in hs;
      MoreEdgesOk(e, n, Before(hs));
      OneMoreEdgeOk(WithEdges(e, n, Before(hs)), n, Last(hs));
    }
  }

  /** `r` is `e` with edges from `n` to `hs` and back; of all lists of edges only that of `n` grew. */
  ghost predicate Given(r: map<StateNode, Edges>, e: map<StateNode, Edges>, n: StateNode, hs: seq<StateNode>) {
    && r.Keys == e.Keys
    && forall m <- e :: r[m] == Edges(if m in hs then n else e[m].before, if m == n then e[m].after + hs else e[m].after)
  }

  lemma GivenMore(q: map<StateNode, Edges>, r: map<StateNode, Edges>, e: map<StateNode, Edges>, n: StateNode,
                  hs: seq<StateNode>, more: seq<StateNode>)
    requires n in e && Given(r, e, n, hs) && Given(q, r, n, more)
    ensures Given(q, e, n, hs + more)
  {
    assert e[n].after + hs + more == e[n].after + (hs + more);
  }

  lemma {:induction false} MoreEdges(e: map<StateNode, Edges>, n: StateNode, hs: seq<StateNode>)
    requires n in e && n !in hs && forall h <- hs :: h in e
    ensures Given(WithEdges(e, n, hs), e, n, hs)
  {
    if hs != [] {
      var r := WithEdges(e, n, Before(hs));
      assert hs == Before(hs) + [Last(hs)];
      MoreEdges(e, n, Before(hs));
      GivenMore(WithEdge(r, n, Last(hs)), r, e, n, Before(hs), [Last(hs)]);
    } else {
      assert e[n].after + [] == e[n].after;
    }
  }

  /** Whatever way the arrival walks, the edges stay in order. */
  lemma {:induction false} OrderKeepsEdges(test: CausalTest, e: map<StateNode, Edges>, c: seq<Link<StateNode>>, n: StateNode)
    requires EdgesOk(e) && EdgesInside(e) && n in e
    requires forall l <- c :: l.item in e && l.item.operatorId == n.operatorId
    ensures EdgesOk(EdgesAfter(test, e, c, n))
    decreases |c|
  {
    if c != [] && c[0].stamp.IsLaterTick(n.stamp) {
      assert NodeEdgesOk(e, c[0].item);
      MoreEdgesOk(e, n, CausallyAfter(test, n.stamp.vt, e[c[0].item].after));
      OrderKeepsEdges(test, EdgesTakenOver(test, e, c[0].item, n), c[1..], n);
    }
  }

  /** What the nodes passed on the way hand over. */
  ghost function HandedOver(test: CausalTest, e: map<StateNode, Edges>, c: seq<Link<StateNode>>, n: StateNode): seq<StateNode>
    requires forall l <- c :: l.item in e
  {
    if c == [] || !c[0].stamp.IsLaterTick(n.stamp) then []
    else CausallyAfter(test, n.stamp.vt, e[c[0].item].after) + HandedOver(test, e, c[1..], n)
  }

  /** The edges that the arrival's vector is causally before, in the order of the list. */
  lemma CausallyAfterSays(test: CausalTest, vt: seq<int32>, hs: seq<StateNode>, h: StateNode)
    ensures CausallyAfter(test, vt, []) == []
    ensures CausallyAfter(test, vt, hs + [h]) == CausallyAfter(test, vt, hs) + if test(vt, h.stamp.vt) then [h] else []
  {
    assert Before(hs + [h]) == hs;
  }

  /** Node by node down to the first tick not below the arrival's. */
  lemma HandedOverSays(test: CausalTest, e: map<StateNode, Edges>, l: Link<StateNode>, c: seq<Link<StateNode>>, n: StateNode)
    requires l.item in e && forall l <- c :: l.item in e
    ensures HandedOver(test, e, [], n) == []
    ensures HandedOver(test, e, [l] + c, n) ==
            if l.stamp.id < n.stamp.id then CausallyAfter(test, n.stamp.vt, e[l.item].after) + HandedOver(test, e, c, n)
            else []
  {
    assert ([l] + c)[1..] == c;
  }

  lemma {:induction false} HandedOverInside(test: CausalTest, e: map<StateNode, Edges>, c: seq<Link<StateNode>>, n: StateNode)
    requires EdgesInside(e) && forall l <- c :: l.item in e
    ensures forall h <- HandedOver(test, e, c, n) :: h in e
  {
    if c != [] {
      HandedOverInside(test, e, c[1..], n);
    }
  }

  lemma {:induction false} SameHandedOver(test: CausalTest, e: map<StateNode, Edges>, r: map<StateNode, Edges>,
                                          c: seq<Link<StateNode>>, n: StateNode)
    requires forall l <- c :: l.item in e && l.item in r && e[l.item].after == r[l.item].after
    ensures HandedOver(test, e, c, n) == HandedOver(test, r, c, n)
  {
    if c != [] {
      SameHandedOver(test, e, r, c[1..], n);
    }
  }

  /** An arrival adds to no list but its own, and to that what the passed nodes hand over of theirs. */
  lemma {:induction false} OrderHandsOver(test: CausalTest, e: map<StateNode, Edges>, c: seq<Link<StateNode>>, n: StateNode)
    requires n in e && EdgesInside(e)
    requires forall l <- c :: l.item in e && l.item != n && n !in e[l.item].after
    ensures Given(EdgesAfter(test, e, c, n), e, n, HandedOver(test, e, c, n))
    decreases |c|
  {
    if c != [] && c[0].stamp.IsLaterTick(n.stamp) {
      var taken := CausallyAfter(test, n.stamp.vt, e[c[0].item].after);
      var r := EdgesTakenOver(test, e, c[0].item, n);
      MoreEdges(e, n, taken);
      OrderHandsOver(test, r, c[1..], n);
      SameHandedOver(test, e, r, c[1..], n);
      GivenMore(EdgesAfter(test, e, c, n), r, e, n, taken, HandedOver(test, r, c[1..], n));
    } else {
      assert e[n].after + [] == e[n].after;
    }
  }

  /** A notification along an upstream chain. */
  lemma NotifyKeepsEdges(test: CausalTest, e: map<StateNode, Edges>, c: seq<Link<StateNode>>, n: StateNode)
    requires EdgesOk(e) && n in e && c != []
    requires forall l <- c :: l.item in e && 0 <= l.item.operatorId < n.operatorId
    ensures EdgesOk(EdgesNotified(test, e, c, n))
  {
    var l := c[Placement(test, c, n)];
    assert l in c;
    OneMoreEdgeOk(e, l.item, n);
  }
}
