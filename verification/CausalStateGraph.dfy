/**
 The causal state graph: an index from operators to their first captured state,
 filled by arrivals in any order.  The ghost state is what the objects amount to;
 its log of arrivals determines every operator's chain.
 */
module CausalStateGraphs {
  import opened Basics
  import opened VectorTimeStamps
  import opened Chain
  import opened StateNodes
  import opened ChainPointers
  import opened CausalGraphs
  import opened GraphStates

  /** Where a walk along the children ends. */
  datatype Walk = State(node: StateNode) | PastTheEnd | NullPointer

  class CausalStateGraph {
    const test: CausalTest
    var index: map<int, StateNode>
    ghost var nodes: set<StateNode>
    ghost var state: GraphState

    /** The objects show the state. */
    ghost predicate Valid()
      reads this, nodes
    {
      PointersOf(nodes) == state.pointers && EdgesOf(nodes) == state.edges && index == state.index
    }

    constructor (test: CausalTest)
      ensures Valid() && this.test == test
      ensures nodes == {} && state == EmptyGraph()
    {
      this.test := test;
      index, nodes, state := map[], {}, EmptyGraph();
    }

    /** getNthStateForOperatorId */
    method GetNthState(op: int, n: int) returns (r: Walk)
      requires Valid()
      ensures r == NthState(state.chains, op, n)
    {
      ghost var s, chains := state.pointers, state.chains;
      ghost var c := if op in chains then chains[op] else [];
      assert op in chains ==> ChainOk(op, s, chains[op]) && HeadOk(index, chains, op);
      var pointer: StateNode? := if op in index then index[op] else null;
      var i := 0;
      while i < n
        invariant 0 <= i && (i <= n || i == 0) && i <= |c|
        invariant pointer == if i < |c| then c[i].item else null
      {
        if pointer == null {
          return NullPointer;
        }
        assert LinkOk(s, c, i);
        pointer := pointer.child;
        i := i + 1;
      }
      r := if pointer == null then PastTheEnd else State(pointer);
    }

    /** Ghost part of addNode: the new node is one of the graph's nodes from now on. */
    ghost method Join(n: StateNode)
      requires Valid() && n !in nodes
      requires n.parent == null && n.child == null && n.happensBefore == null && n.happensAfter == []
      modifies this`nodes, this`state
      ensures Valid() && nodes == old(nodes) + {n} && state == Joined(old(state), n, n.isOrdered)
    {
      state := Joined(state, n, n.isOrdered);
      nodes := nodes + {n};
    }

    method PlaceFirst(n: StateNode)
      requires Valid() && Unplaced(state, n) && n.operatorId !in index
      modifies this`index, this`state
      ensures Valid() && state == PlacedFirst(old(state), n)
    {
      index := index[n.operatorId := n];
      state := PlacedFirst(state, n);
    }

    method OrderFromIndex(n: StateNode, ghost c: seq<Link<StateNode>>)
      requires n in nodes && Walkable(PointersOf(nodes), c, n) && Inside(nodes, c)
      requires EdgesInside(EdgesOf(nodes)) && ParentsInside(PointersOf(nodes))
      requires n.operatorId in index && c[0].item == index[n.operatorId]
      modifies nodes
      ensures index == old(index) && nodes == old(nodes) && state == old(state)
      ensures PointersOf(nodes) == PointersAfter(old(PointersOf(nodes)), c, n)
      ensures EdgesOf(nodes) == EdgesAfter(test, old(EdgesOf(nodes)), c, n)
    {
      var _ := index[n.operatorId].OrderStateNode(test, n, nodes, c);
    }

    /** The objects have changed to show another state. */
    ghost method Show(state': GraphState)
      requires PointersOf(nodes) == state'.pointers && EdgesOf(nodes) == state'.edges && index == state'.index
      modifies this`state
      ensures Valid() && state == state' && nodes == old(nodes) && index == old(index)
    {
      state := state';
    }

    method PlaceNext(n: StateNode)
      requires Valid() && Unplaced(state, n) && n.operatorId in index
      modifies this`state, nodes
      ensures Valid() && state == PlacedNext(test, old(state), n) && nodes == old(nodes)
    {
      NextWalk(state, n);
      OrderFromIndex(n, state.chains[n.operatorId]);
      Show(PlacedNext(test, state, n));
    }

    /** addNode, up to the notifications. */
    method Place(n: StateNode)
      requires Valid() && Unplaced(state, n)
      modifies this`index, this`state, nodes
      ensures Valid() && state == Placed(test, old(state), n)
    {
      if n.operatorId !in index {
        PlaceFirst(n);
      } else {
        PlaceNext(n);
      }
    }

    method NotifyFromIndex(n: StateNode, u: int, ghost c: seq<Link<StateNode>>)
      requires n in nodes && Walkable(PointersOf(nodes), c, n) && Inside(nodes, c)
      requires u in index && c[0].item == index[u]
      modifies nodes`happensAfter, nodes`happensBefore
      ensures index == old(index) && nodes == old(nodes) && state == old(state)
      ensures PointersOf(nodes) == old(PointersOf(nodes))
      ensures EdgesOf(nodes) == EdgesNotified(test, old(EdgesOf(nodes)), c, n)
    {
      index[u].NotifyStateNode(test, n, nodes, c);
    }

    /** The body of addNode's loop. */
    method NotifyIndexed(n: StateNode, u: int)
      requires Valid() && n in nodes && u in index && 0 <= u < n.operatorId
      modifies this`state, nodes`happensAfter, nodes`happensBefore
      ensures Valid() && state == Notified(test, old(state), n, u)
    {
      ghost var next := Notified(test, state, n, u);
      NotifyFromIndex(n, u, state.chains[u]);
      Show(next);
    }

    /** addNode's loop over the upstream operators, in whatever order the set yields them.  A missing
        index entry is a null pointer: the rest is not notified. */
    method NotifyUpstream(n: StateNode) returns (ok: bool, ghost done: set<int>)
      requires Valid() && n in nodes
      modifies this`state, nodes`happensAfter, nodes`happensBefore
      ensures Valid() && state == old(state).(edges := state.edges)
      ensures Told(test, old(state).edges, state.edges, state.chains, n, done)
      ensures done <= Upstream(n.operatorId) && (ok <==> done == Upstream(n.operatorId))
      ensures ok <==> Upstream(n.operatorId) <= index.Keys
    {
      var left := CausalUpstreamDependencies(n.operatorId);
      ok, done := true, {};
      ToldNone(test, state.edges, state.chains, n);
      while left != {}
        invariant Valid() && state == old(state).(edges := state.edges)
        invariant left <= Upstream(n.operatorId) && done == Upstream(n.operatorId) - left && done <= index.Keys
        invariant Told(test, old(state).edges, state.edges, state.chains, n, done)
        decreases left
      {
        var u :| u in left;
        if u !in index {
          ok := false;
          break;
        }
        NotifiedIsTold(test, old(state).edges, state, n, done, u);
        NotifyIndexed(n, u);
        left, done := left - {u}, done + {u};
      }
    }

    /** addNode.  Every operator's chain stays what the arrivals amount to, and the edges stay in order. */
    method AddNode(n: StateNode) returns (ok: bool, ghost done: set<int>)
      requires Valid() && n !in nodes
      requires n.parent == null && n.child == null && n.happensBefore == null && n.happensAfter == []
      modifies this, nodes, n
      ensures Valid() && nodes == old(nodes) + {n}
      ensures state.log == old(state).log + [LinkOf(n, old(n.isOrdered))]
      ensures index == if n.operatorId in old(index) then old(index) else old(index)[n.operatorId := n]
      ensures ok <==> Upstream(n.operatorId) <= old(index).Keys
      ensures done <= Upstream(n.operatorId) && (ok <==> done == Upstream(n.operatorId))
      ensures Arrived(test, old(state).edges, state.edges, old(state).chains, n, done)
    {
      Join(n);
      Place(n);
      ok, done := NotifyUpstream(n);
      StateArrived(test, old(state), n, old(n.isOrdered), state.edges, done);
    }

    /** calculateConsistentCut, from the third state of the sink. */
    method CalculateConsistentCut(sink: int, context: CutContext, stack: nat) returns (r: Cut)
      requires Valid()
      modifies context
      ensures var start := NthState(state.chains, sink, 2);
              && (r == NoSuchState <==> start == NullPointer)
              && (r == TooEarly <==> start == PastTheEnd)
              && (start.State? ==> start.node in state.edges && CutFrom(start.node, stack, r, old(context.Value()), context.Value()))
      ensures var start := NthState(state.chains, sink, 2);
              var before := old(context.Value());
              !start.State? ==> context.Value() == before.(cancelled := start.PastTheEnd? || before.cancelled)
    {
      var walk := GetNthState(sink, 2);
      match walk
      case NullPointer => r := NoSuchState;
      case PastTheEnd =>
        context.Cancel();
        r := TooEarly;
      case State(node) =>
        assert ChainOk(sink, state.pointers, state.chains[sink]);
        ChainInside(sink, state.pointers, state.chains[sink]);
        r := CutAt(node, context, stack);
    }

    /** How a cut from `node` ends: it visits different operators, going upstream. */
    ghost predicate CutFrom(node: StateNode, stack: nat, r: Cut, before: Gathered, after: Gathered)
      requires node in state.edges
      reads this
    {
      && (r == Complete || r == StackOverflow)
      && CutEnds(state.pointers, state.edges, node, stack, before, after, r == Complete)
      && Descending(Trail(state.edges, node))
    }

    method CutAt(node: StateNode, context: CutContext, stack: nat) returns (r: Cut)
      requires Valid() && node in nodes
      modifies context
      ensures CutFrom(node, stack, r, old(context.Value()), context.Value())
    {
      TrailVisitsDistinctOperators(state.edges, node);
      var ok := node.CalculateConsistentCut(context, stack, nodes, state.pointers, state.edges);
      r := if ok then Complete else StackOverflow;
    }
  }

  /** How a cut ends. */
  datatype Cut = NoSuchState | TooEarly | Complete | StackOverflow

  /** Where walking `n` children down from the index entry ends. */
  function NthState(chains: Chains, op: int, n: int): Walk {
    var c := if op in chains then chains[op] else [];
    var k := if n < 0 then 0 else n;
    if k < |c| then State(c[k].item) else if k == |c| then PastTheEnd else NullPointer
  }

  lemma NthStateSays(chains: Chains, op: int, n: int)
    ensures op !in chains ==> NthState(chains, op, n) == if n <= 0 then PastTheEnd else NullPointer
    ensures op in chains && n < 0 && chains[op] != [] ==> NthState(chains, op, n) == State(chains[op][0].item)
    ensures op in chains && 0 <= n < |chains[op]| ==> NthState(chains, op, n) == State(chains[op][n].item)
    ensures op in chains && n == |chains[op]| ==> NthState(chains, op, n) == PastTheEnd
    ensures op in chains && n > |chains[op]| ==> NthState(chains, op, n) == NullPointer
  {
  }

  /** What the pointers say when `arrivals` came in order: `child` and `parent` are inverse along them, and none of them
      precedes the first. */
  ghost predicate InOrder(s: map<StateNode, Pointers>, arrivals: seq<Link<StateNode>>, i: nat)
    requires i < |arrivals|
  {
    && arrivals[i].item in s
    && var p := s[arrivals[i].item];
    && p.child == (if i + 1 < |arrivals| then arrivals[i + 1].item else null)
    && (i > 0 ==> p.parent == arrivals[i - 1].item)
    && (i == 0 ==> p.parent == null || p.parent !in Items(arrivals))
  }

  lemma KeptInOrder(op: int, s: map<StateNode, Pointers>, c: seq<Link<StateNode>>, arrivals: seq<Link<StateNode>>)
    requires ChainOk(op, s, c) && c == ChainOf(arrivals) && Ascending(arrivals)
    ensures Items(c) == Items(arrivals) && forall i :: 0 <= i < |arrivals| ==> InOrder(s, arrivals, i)
  {
    InOrderArrivals(arrivals);
    assert Items(c) == Items(arrivals);
    forall i | 0 <= i < |arrivals|
      ensures InOrder(s, arrivals, i)
    {
      assert LinkOk(s, c, i);
    }
  }

  /** States that arrive in strictly ascending tick order are all kept exactly, whatever else arrives in between:
      the n-th state is the n-th arrival, and there is exactly nothing one past the end. */
  lemma InOrderArrivalsAreKept(g: GraphState, op: int, n: nat)
    requires Ascending(OfOperator(g.log, op))
    ensures var arrivals := OfOperator(g.log, op);
            && NthState(g.chains, op, n) ==
                 (if n < |arrivals| then State(arrivals[n].item) else if n == |arrivals| then PastTheEnd else NullPointer)
            && (n < |arrivals| ==> InOrder(g.pointers, arrivals, n))
  {
    var arrivals := OfOperator(g.log, op);
    assert IsChainOf(g.chains, g.log, op);
    if op in g.chains {
      KeptInOrder(op, g.pointers, g.chains[op], arrivals);
      if n < |arrivals| {
        assert Items(g.chains[op])[n] == Items(arrivals)[n];
      }
    }
  }

  /** Where the sink's states arrived in order and its third one has a happens-before pointer, no stack is large enough for
      the cut from there. */
  lemma InOrderSinkOverflows(g: GraphState, sink: int, stack: nat)
    requires sink >= 2 && Ascending(OfOperator(g.log, sink)) && |OfOperator(g.log, sink)| > 2
    requires var third := OfOperator(g.log, sink)[2].item; third in g.edges && g.edges[third].before != null
    ensures var start := NthState(g.chains, sink, 2);
            && start.State? && start.node in g.edges
            && !Completes(g.pointers, g.edges, Trail(g.edges, start.node), stack)
  {
    InOrderArrivalsAreKept(g, sink, 2);
    assert ChainOk(sink, g.pointers, g.chains[sink]);
    ChainInside(sink, g.pointers, g.chains[sink]);
    assert g.chains[sink][2] in g.chains[sink];
    var arrivals := OfOperator(g.log, sink);
    var node, parent: StateNode := arrivals[2].item, arrivals[1].item;
    assert InOrder(g.pointers, arrivals, 2) && g.pointers[node].parent == parent;
    assert Stuck(g.pointers, g.edges, node);
    assert node in Trail(g.edges, node);
  }
}
