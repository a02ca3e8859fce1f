/**
 A whole causal graph as a value: pointers, edges, chains, index and log of
 arrivals fit together, and joining, placing and telling keep it so.
 */
module GraphStates {
  import opened Basics
  import opened VectorTimeStamps
  import opened Chain
  import opened StateNodes
  import opened ChainPointers
  import opened CausalGraphs

  datatype GraphValue = GraphValue(
    pointers: map<StateNode, Pointers>,
    edges: map<StateNode, Edges>,
    chains: Chains,
    index: map<int, StateNode>,
    log: seq<Link<StateNode>>)
  {
    ghost predicate Consistent() {
      && pointers.Keys == edges.Keys
      && ChainsOk(pointers, chains)
      && EdgesOk(edges)
      && IndexOk(index, chains)
      && FromLog(chains, log)
    }
  }

  function EmptyGraph(): (g: GraphValue)
    ensures g.Consistent()
  {
    var g := GraphValue(map[], map[], map[], map[], []);
    assert forall op: int :: IsChainOf(g.chains, g.log, op);
    g
  }

  /** All that holds of a graph between calls. */
  type GraphState = g: GraphValue | g.Consistent() ghost witness EmptyGraph()

  // ---------- Joining ----------

  ghost predicate Inside(all: set<StateNode>, c: seq<Link<StateNode>>) {
    forall l <- c :: l.item in all
  }

  /** `n` is among the nodes, but not yet on a chain. */
  ghost predicate Unplaced(g: GraphValue, n: StateNode) {
    && Unattached(g.pointers, n) && n in g.edges && EdgesInside(g.edges)
    && (n.operatorId in g.chains ==> n !in Items(g.chains[n.operatorId]) && Inside(g.edges.Keys, g.chains[n.operatorId]))
  }

  ghost function Joined(g: GraphState, n: StateNode, ordered: bool): (r: GraphState)
    requires n !in g.edges
    ensures r == g.(pointers := g.pointers[n := Pointers(null, null, ordered)], edges := g.edges[n := Edges(null, [])])
    ensures Unplaced(r, n)
  {
    var r := g.(pointers := g.pointers[n := Pointers(null, null, ordered)], edges := g.edges[n := Edges(null, [])]);
    JoinKeepsAll(g.pointers, g.edges, g.chains, n, ordered);
    EdgesOkInside(r.edges);
    ChainsInside(g.pointers, g.chains);
    r
  }

  lemma ChainsInside(s: map<StateNode, Pointers>, chains: Chains)
    requires ChainsOk(s, chains)
    ensures Apart(chains) && forall op <- chains :: Inside(s.Keys, chains[op])
  {
    forall op | op in chains
      ensures Inside(s.Keys, chains[op]) && forall l <- chains[op] :: l.item.operatorId == op
    {
      ChainInside(op, s, chains[op]);
    }
  }

  // ---------- Placing ----------

  ghost function Placed(test: CausalTest, g: GraphState, n: StateNode): (r: GraphState)
    requires Unplaced(g, n)
    ensures r.index == if n.operatorId in g.index then g.index else g.index[n.operatorId := n]
    ensures r.log == g.log + [LinkOf(n, g.pointers[n].isOrdered)]
    ensures n.operatorId in g.chains ==> g.chains[n.operatorId] != []
    ensures r.chains == Updated(g.chains, LinkOf(n, g.pointers[n].isOrdered))
    ensures r.edges.Keys == g.edges.Keys
  {
    if n.operatorId !in g.index then PlacedFirst(g, n) else PlacedNext(test, g, n)
  }

  ghost function PlacedFirst(g: GraphState, n: StateNode): (r: GraphState)
    requires Unplaced(g, n) && n.operatorId !in g.index
    ensures var l := LinkOf(n, g.pointers[n].isOrdered);
            r == GraphValue(g.pointers, g.edges, Updated(g.chains, l), g.index[n.operatorId := n], g.log + [l])
  {
    var l := LinkOf(n, g.pointers[n].isOrdered);
    FirstArrival(g.pointers, g.chains, g.index, n);
    LogOneMore(g.chains, g.log, l);
    GraphValue(g.pointers, g.edges, Updated(g.chains, l), g.index[n.operatorId := n], g.log + [l])
  }

  lemma NextWalk(g: GraphState, n: StateNode)
    requires Unplaced(g, n) && n.operatorId in g.index
    ensures n.operatorId in g.chains && g.chains[n.operatorId] != []
    ensures g.chains[n.operatorId][0].item == g.index[n.operatorId]
    ensures Walkable(g.pointers, g.chains[n.operatorId], n) && ParentsInside(g.pointers)
    ensures forall l <- g.chains[n.operatorId] :: l.item in g.edges && l.item.operatorId == n.operatorId
  {
    assert HeadOk(g.index, g.chains, n.operatorId);
    NextArrival(g.pointers, g.chains, n);
    ChainInside(n.operatorId, g.pointers, g.chains[n.operatorId]);
  }

  ghost function PlacedNext(test: CausalTest, g: GraphState, n: StateNode): (r: GraphState)
    requires Unplaced(g, n) && n.operatorId in g.index
    ensures n.operatorId in g.chains && Walkable(g.pointers, g.chains[n.operatorId], n) && ParentsInside(g.pointers)
    ensures var l, c := LinkOf(n, g.pointers[n].isOrdered), g.chains[n.operatorId];
            r == GraphValue(PointersAfter(g.pointers, c, n), EdgesAfter(test, g.edges, c, n), Updated(g.chains, l),
                            g.index, g.log + [l])
  {
    var l, c := LinkOf(n, g.pointers[n].isOrdered), g.chains[n.operatorId];
    NextWalk(g, n);
    NextArrival(g.pointers, g.chains, n);
    StillIndexed(g.pointers, g.chains, g.index, l);
    LogOneMore(g.chains, g.log, l);
    OrderKeepsEdges(test, g.edges, c, n);
    GraphValue(PointersAfter(g.pointers, c, n), EdgesAfter(test, g.edges, c, n), Updated(g.chains, l),
               g.index, g.log + [l])
  }

  // ---------- Telling ----------

  /** One upstream operator has been told. */
  ghost function Notified(test: CausalTest, g: GraphState, n: StateNode, u: int): (r: GraphState)
    requires n in g.edges && u in g.index && 0 <= u < n.operatorId
    ensures u in g.chains && Walkable(g.pointers, g.chains[u], n) && Inside(g.edges.Keys, g.chains[u])
    ensures g.chains[u][0].item == g.index[u]
    ensures r == g.(edges := EdgesNotified(test, g.edges, g.chains[u], n))
  {
    assert HeadOk(g.index, g.chains, u);
    ChainInside(u, g.pointers, g.chains[u]);
    ChainIsWalkable(u, g.pointers, g.chains[u], n, 0);
    assert g.chains[u][0..] == g.chains[u];
    NotifyKeepsEdges(test, g.edges, g.chains[u], n);
    g.(edges := EdgesNotified(test, g.edges, g.chains[u], n))
  }

  lemma NotifiedIsTold(test: CausalTest, e: map<StateNode, Edges>, g: GraphState, n: StateNode, done: set<int>, u: int)
    requires n in g.edges && u in g.index && 0 <= u < n.operatorId && u !in done
    requires Told(test, e, g.edges, g.chains, n, done)
    ensures Told(test, e, Notified(test, g, n, u).edges, g.chains, n, done + {u})
  {
    var _ := Notified(test, g, n, u);
    ChainsInside(g.pointers, g.chains);
    TellOneMore(test, e, g.edges, g.chains, n, done, u);
  }

  // ---------- What an arrival does to the edges ----------

  /** `r` is `e` with the edges that the arrival of `n` brought: those of upstream nodes to it, and those it took over
      from its own operator's nodes. */
  ghost predicate Arrived(test: CausalTest, e: map<StateNode, Edges>, r: map<StateNode, Edges>,
                          chains: Chains, n: StateNode, done: set<int>)
  {
    && r.Keys == e.Keys + {n}
    && (forall m <- e :: r[m].after == e[m].after + if exists u <- done :: ToldAt(test, chains, n, u, m) then [n] else [])
    && r[n].after == TakenOver(test, e, chains, n)
    && (forall m <- e :: r[m].before == if m in TakenOver(test, e, chains, n) then n else e[m].before)
    && (r[n].before != null <==> exists u <- done, m <- e :: ToldAt(test, chains, n, u, m))
    && (r[n].before != null ==> exists u <- done :: ToldAt(test, chains, n, u, r[n].before))
  }

  /** What an arrival means for each node: its list gains the arrival if it was told there and loses nothing, its
      happens-before pointer moves if the arrival took the edge over, and the arrival itself points to one that was told. */
  lemma ArrivedSays(test: CausalTest, e: map<StateNode, Edges>, r: map<StateNode, Edges>, chains: Chains, n: StateNode,
                    done: set<int>, m: StateNode)
    requires n !in e && Arrived(test, e, r, chains, n, done)
    ensures m in r <==> m in e || m == n
    ensures m in e && (exists u <- done :: ToldAt(test, chains, n, u, m)) ==> r[m].after == e[m].after + [n]
    ensures m in e && (forall u <- done :: !ToldAt(test, chains, n, u, m)) ==> r[m].after == e[m].after
    ensures m in e && m in TakenOver(test, e, chains, n) ==> r[m].before == n
    ensures m in e && m !in TakenOver(test, e, chains, n) ==> r[m].before == e[m].before
    ensures r[n].after == TakenOver(test, e, chains, n)
    ensures r[n].before != null ==> exists u <- done :: ToldAt(test, chains, n, u, r[n].before)
    ensures m in e && (exists u <- done :: ToldAt(test, chains, n, u, m)) ==> r[n].before != null
  {
    assert m in e ==> e[m].after + [] == e[m].after;
  }

  lemma TakenOverSays(test: CausalTest, e: map<StateNode, Edges>, chains: Chains, n: StateNode)
    ensures n.operatorId !in chains ==> TakenOver(test, e, chains, n) == []
    ensures n.operatorId in chains && (forall l <- chains[n.operatorId] :: l.item in e) ==>
              TakenOver(test, e, chains, n) == HandedOver(test, e, chains[n.operatorId], n)
  {
  }

  /** The edges that `n` takes over on its way down its operator's chain. */
  ghost function TakenOver(test: CausalTest, e: map<StateNode, Edges>, chains: Chains, n: StateNode): seq<StateNode> {
    if n.operatorId in chains && Inside(e.Keys, chains[n.operatorId]) then HandedOver(test, e, chains[n.operatorId], n)
    else []
  }

  lemma PlacedEdges(test: CausalTest, g: GraphState, n: StateNode, ordered: bool)
    requires n !in g.edges
    ensures Given(Placed(test, Joined(g, n, ordered), n).edges, g.edges[n := Edges(null, [])], n,
                  TakenOver(test, g.edges, g.chains, n))
    ensures forall h <- TakenOver(test, g.edges, g.chains, n) :: h in g.edges
  {
    var j := Joined(g, n, ordered);
    ChainsInside(g.pointers, g.chains);
    EdgesOkInside(g.edges);
    if n.operatorId in g.index {
      var c := g.chains[n.operatorId];
      HandedOverInside(test, g.edges, c, n);
      OrderHandsOver(test, j.edges, c, n);
      SameHandedOver(test, g.edges, j.edges, c, n);
      assert Placed(test, j, n) == PlacedNext(test, j, n);
    } else {
      assert j.edges[n].after + [] == j.edges[n].after;
    }
  }

  /** The chains that the upstream operators were told along are those before the arrival. */
  lemma ToldBefore(test: CausalTest, p: map<StateNode, Edges>, r: map<StateNode, Edges>, chains: Chains,
                   l: Link<StateNode>, n: StateNode, done: set<int>)
    requires l.item == n && done <= Upstream(n.operatorId) && (n.operatorId in chains ==> chains[n.operatorId] != [])
    requires Told(test, p, r, Updated(chains, l), n, done)
    ensures Told(test, p, r, chains, n, done)
  {
    assert forall u, m | u in done :: ToldAt(test, Updated(chains, l), n, u, m) <==> ToldAt(test, chains, n, u, m);
  }

  lemma ArrivedEdges(test: CausalTest, e: map<StateNode, Edges>, r: map<StateNode, Edges>, p: map<StateNode, Edges>,
                     chains: Chains, n: StateNode, done: set<int>)
    requires n !in e && forall op <- chains :: Inside(e.Keys, chains[op])
    requires Given(p, e[n := Edges(null, [])], n, TakenOver(test, e, chains, n))
    requires Told(test, p, r, chains, n, done)
    requires n !in TakenOver(test, e, chains, n)
    ensures Arrived(test, e, r, chains, n, done)
  {
    forall u, m | u in done && ToldAt(test, chains, n, u, m)
      ensures m in e
    {
      ToldInside(test, chains, n, u, m, e.Keys);
    }
    assert p[n].after + [] == p[n].after;
  }

  lemma ToldInside(test: CausalTest, chains: Chains, n: StateNode, u: int, m: StateNode, all: set<StateNode>)
    requires ToldAt(test, chains, n, u, m) && Inside(all, chains[u])
    ensures m in all
  {
    assert chains[u][Placement(test, chains[u], n)] in chains[u];
  }

  /** What addNode does to the edges as a whole. */
  lemma StateArrived(test: CausalTest, g: GraphState, n: StateNode, ordered: bool, r: map<StateNode, Edges>, done: set<int>)
    requires n !in g.edges && done <= Upstream(n.operatorId)
    requires var p := Placed(test, Joined(g, n, ordered), n); Told(test, p.edges, r, p.chains, n, done)
    ensures Arrived(test, g.edges, r, g.chains, n, done)
  {
    var p := Placed(test, Joined(g, n, ordered), n);
    PlacedEdges(test, g, n, ordered);
    ChainsInside(g.pointers, g.chains);
    assert n.operatorId in g.chains ==> HeadOk(g.index, g.chains, n.operatorId);
    ToldBefore(test, p.edges, r, g.chains, LinkOf(n, ordered), n, done);
    ArrivedEdges(test, g.edges, r, p.edges, g.chains, n, done);
  }
}
