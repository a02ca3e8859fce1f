/**
 A graph on which the consistent cut never returns: one state of each upstream
 operator and three states of the sink, all captured in order.
 */
module StuckCuts {
  import opened Basics
  import opened VectorTimeStamps
  import opened Chain
  import opened StateNodes
  import opened ChainPointers
  import opened CausalGraphs
  import opened GraphStates
  import opened CausalStateGraphs

  /** All vectors are alike, so none are concurrent. */
  ghost predicate Alike(nodes: set<StateNode>) {
    forall m <- nodes :: m.stamp.vt == [0]
  }

  lemma NotConcurrent()
    ensures !Concurrent([0], [0])
  {
    ConcurrentSymmetric([0], [0]);
  }

  /** A node told of by operator 0 has a happens-before pointer. */
  lemma FirstIsTold(test: CausalTest, g: GraphState, r: map<StateNode, Edges>, n: StateNode, done: set<int>)
    requires Alike(g.edges.Keys) && n.stamp.vt == [0]
    requires Arrived(test, g.edges, r, g.chains, n, done) && 0 in g.index && 0 in done
    ensures r[n].before != null
  {
    var c := g.chains[0];
    assert HeadOk(g.index, g.chains, 0) && ChainOk(0, g.pointers, c);
    var i := Placement(test, c, n);
    assert LinkOk(g.pointers, c, i);
    NotConcurrent();
    assert ToldAt(test, g.chains, n, 0, c[i].item);
  }

  /** The operator and the tick of arrival `i`: one of each of the operators 0 to 3, then operator 4 from tick 0 on. */
  function OperatorAt(i: nat): int {
    if i < 4 then i else 4
  }

  function TickAt(i: nat): int {
    if i < 4 then 0 else i - 4
  }

  ghost predicate ArrivedAt(l: Link<StateNode>, i: nat) {
    l.item.operatorId == OperatorAt(i) && l.Tick() == TickAt(i)
  }

  /** `i` states have arrived; the last one has a happens-before pointer if it is one of the sink. */
  ghost predicate Prepared(g: GraphValue, i: nat) {
    && |g.log| == i && (forall j {:trigger ArrivedAt(g.log[j], j)} :: 0 <= j < i ==> ArrivedAt(g.log[j], j))
    && Alike(g.edges.Keys) && Upstream(OperatorAt(i)) <= g.index.Keys
    && (i > 4 ==> g.log[i - 1].item in g.edges && g.edges[g.log[i - 1].item].before != null)
  }

  lemma NextPrepared(test: CausalTest, g: GraphState, r: GraphValue, n: StateNode, done: set<int>, i: nat)
    requires Prepared(g, i) && n.operatorId == OperatorAt(i) && n.stamp.id == TickAt(i) && n.stamp.vt == [0]
    requires r.log == g.log + [LinkOf(n, true)] && r.index.Keys == g.index.Keys + {n.operatorId}
    requires Arrived(test, g.edges, r.edges, g.chains, n, done) && done == Upstream(n.operatorId)
    ensures Prepared(r, i + 1)
  {
    if i >= 4 {
      FirstIsTold(test, g, r.edges, n, done);
    }
    forall j | 0 <= j < i + 1
      ensures ArrivedAt(r.log[j], j)
    {
      assert j < i ==> ArrivedAt(g.log[j], j);
    }
  }

  lemma NextAdded(test: CausalTest, g: GraphState, r: GraphValue, n: StateNode, ok: bool, done: set<int>, i: nat)
    requires Prepared(g, i) && n.operatorId == OperatorAt(i) && n.stamp.id == TickAt(i) && n.stamp.vt == [0]
    requires r.log == g.log + [LinkOf(n, true)]
    requires r.index == if n.operatorId in g.index then g.index else g.index[n.operatorId := n]
    requires ok <==> Upstream(n.operatorId) <= g.index.Keys
    requires ok <==> done == Upstream(n.operatorId)
    requires Arrived(test, g.edges, r.edges, g.chains, n, done)
    ensures Prepared(r, i + 1)
  {
    NextPrepared(test, g, r, n, done, i);
  }

  lemma LogOneMore(log: seq<Link<StateNode>>, i: nat, op: int)
    requires i < |log|
    ensures OfOperator(log[..i + 1], op) ==
            OfOperator(log[..i], op) + if log[i].item.operatorId == op then [log[i]] else []
  {
    assert Before(log[..i + 1]) == log[..i];
  }

  /** Seven arrivals: the sink's are the last three. */
  lemma SinkOfSeven(g: GraphValue)
    requires Prepared(g, 7)
    ensures OfOperator(g.log, 4) == g.log[4..] && Ascending(g.log[4..])
  {
    for i := 0 to 4
      invariant OfOperator(g.log[..i], 4) == []
    {
      assert ArrivedAt(g.log[i], i);
      LogOneMore(g.log, i, 4);
    }
    for i := 4 to 7
      invariant OfOperator(g.log[..i], 4) == g.log[4..i]
    {
      assert ArrivedAt(g.log[i], i);
      LogOneMore(g.log, i, 4);
    }
    assert g.log[..7] == g.log;
    assert ArrivedAt(g.log[4], 4) && ArrivedAt(g.log[5], 5) && ArrivedAt(g.log[6], 6);
  }

  method Next(g: CausalStateGraph, n: StateNode, ghost i: nat)
    requires g.Valid() && Prepared(g.state, i) && n !in g.nodes && n.isOrdered
    requires n.operatorId == OperatorAt(i) && n.stamp.id == TickAt(i) && n.stamp.vt == [0]
    requires n.parent == null && n.child == null && n.happensBefore == null && n.happensAfter == []
    modifies g, g.nodes, n
    ensures g.Valid() && g.nodes == old(g.nodes) + {n} && Prepared(g.state, i + 1)
  {
    ghost var before := g.state;
    var ok, done := g.AddNode(n);
    NextAdded(g.test, before, g.state, n, ok, done, i);
  }

  method Capture(g: CausalStateGraph, i: nat)
    requires g.Valid() && Prepared(g.state, i) && i < 7
    modifies g, g.nodes
    ensures g.Valid() && Prepared(g.state, i + 1) && fresh(g.nodes - old(g.nodes))
  {
    var n := new StateNode(OperatorAt(i), VectorTimeStamp(TickAt(i), [0]), true);
    Next(g, n, i);
  }

  method SevenStates(test: CausalTest) returns (g: CausalStateGraph)
    ensures g.Valid() && Prepared(g.state, 7)
  {
    g := new CausalStateGraph(test);
    for i := 0 to 7
      invariant fresh(g) && fresh(g.nodes) && g.Valid() && Prepared(g.state, i)
    {
      Capture(g, i);
    }
  }

  method CutAfterSeven(g: CausalStateGraph, context: CutContext, stack: nat) returns (r: Cut)
    requires g.Valid() && Prepared(g.state, 7)
    modifies context
    ensures r == StackOverflow
  {
    SinkOfSeven(g.state);
    InOrderSinkOverflows(g.state, 4, stack);
    r := g.CalculateConsistentCut(4, context, stack);
  }

  /** The sink's third state came in order and has a happens-before pointer, and whatever the stack, it overflows. */
  method Overflow(test: CausalTest, stack: nat) returns (g: CausalStateGraph, r: Cut)
    ensures g.Valid() && Prepared(g.state, 7) && r == StackOverflow
  {
    var context := new CutContext();
    g := SevenStates(test);
    r := CutAfterSeven(g, context, stack);
  }
}
