/**
 The chains of all operators at once: how they follow from the log of arrivals,
 how one arrival or notification leaves the others alone, and which nodes learn
 of an arrival.
 */
module CausalGraphs {
  import opened Basics
  import opened VectorTimeStamps
  import opened Chain
  import opened StateNodes
  import opened ChainPointers

  type Chains = map<int, seq<Link<StateNode>>>

  // ---------- The chains of all operators ----------

  /** The arrivals of one operator. */
  function OfOperator(log: seq<Link<StateNode>>, op: int): seq<Link<StateNode>>
    decreases |log|
  {
    if log == [] then []
    else OfOperator(Before(log), op) + if Last(log).item.operatorId == op then [Last(log)] else []
  }

  ghost predicate IsChainOf(chains: Chains, log: seq<Link<StateNode>>, op: int) {
    if op in chains then chains[op] != [] && chains[op] == ChainOf(OfOperator(log, op)) else OfOperator(log, op) == []
  }

  /** `chains` is what all arrivals of the log amount to, operator by operator. */
  ghost predicate FromLog(chains: Chains, log: seq<Link<StateNode>>) {
    forall op: int :: IsChainOf(chains, log, op)
  }

  function Updated(chains: Chains, l: Link<StateNode>): Chains
    requires l.item.operatorId in chains ==> chains[l.item.operatorId] != []
  {
    var op := l.item.operatorId;
    chains[op := if op in chains then Arrive(chains[op], l) else [l.(linked := false)]]
  }

  lemma ChainOneMore(chains: Chains, log: seq<Link<StateNode>>, l: Link<StateNode>, op: int)
    requires FromLog(chains, log) && (l.item.operatorId in chains ==> chains[l.item.operatorId] != [])
    ensures IsChainOf(Updated(chains, l), log + [l], op)
  {
    assert IsChainOf(chains, log, op);
    assert Before(log + [l]) == log && Last(log + [l]) == l;
    var before := OfOperator(log, op);
    if op == l.item.operatorId {
      assert Before(before + [l]) == before && Last(before + [l]) == l;
      if op in chains {
        NonEmpty(chains[op], l);
      }
    } else {
      assert before + [] == before;
    }
  }

  lemma LogOneMore(chains: Chains, log: seq<Link<StateNode>>, l: Link<StateNode>)
    requires FromLog(chains, log) && (l.item.operatorId in chains ==> chains[l.item.operatorId] != [])
    ensures FromLog(Updated(chains, l), log + [l])
  {
    forall op: int
      ensures IsChainOf(Updated(chains, l), log + [l], op)
    {
      ChainOneMore(chains, log, l, op);
    }
  }

  /** The pointers of all nodes spell out the chains. */
  ghost predicate ChainsOk(s: map<StateNode, Pointers>, chains: Chains) {
    && ParentsOk(s)
    && forall op {:trigger ChainOk(op, s, chains[op])} :: op in chains ==> ChainOk(op, s, chains[op])
  }

  ghost predicate HeadOk(index: map<int, StateNode>, chains: Chains, op: int)
    requires op in index && op in chains
  {
    chains[op] != [] && chains[op][0].item == index[op]
  }

  /** The index names the head of every chain. */
  ghost predicate IndexOk(index: map<int, StateNode>, chains: Chains) {
    && index.Keys == chains.Keys
    && forall op {:trigger HeadOk(index, chains, op)} :: op in chains ==> HeadOk(index, chains, op)
  }

  // ---------- One arrival ----------

  lemma ChainOkExtends(op: int, s: map<StateNode, Pointers>, c: seq<Link<StateNode>>, n: StateNode, p: Pointers)
    requires ChainOk(op, s, c) && n !in s
    ensures ChainOk(op, s[n := p], c)
  {
    var s' := s[n := p];
    forall i | 0 <= i < |c|
      ensures LinkOk(s', c, i)
    {
      assert LinkOk(s, c, i);
    }
  }

  lemma ChainInside(op: int, s: map<StateNode, Pointers>, c: seq<Link<StateNode>>)
    requires ChainOk(op, s, c)
    ensures forall x <- Items(c) :: x in s
    ensures forall l <- c :: l.item in s && l.item.operatorId == op
  {
    forall i | 0 <= i < |c|
      ensures c[i].item in s
    {
      assert LinkOk(s, c, i);
    }
  }

  /** A new node joins unattached. */
  lemma JoinKeepsAll(s: map<StateNode, Pointers>, e: map<StateNode, Edges>, chains: Chains, n: StateNode, ordered: bool)
    requires ChainsOk(s, chains) && EdgesOk(e) && n !in s && s.Keys == e.Keys
    ensures ChainsOk(s[n := Pointers(null, null, ordered)], chains) && EdgesOk(e[n := Edges(null, [])])
    ensures Unattached(s[n := Pointers(null, null, ordered)], n)
    ensures n.operatorId in chains ==> n !in Items(chains[n.operatorId])
  {
    forall op | op in chains
      ensures ChainOk(op, s[n := Pointers(null, null, ordered)], chains[op])
    {
      ChainOkExtends(op, s, chains[op], n, Pointers(null, null, ordered));
    }
    var s', e' := s[n := Pointers(null, null, ordered)], e[n := Edges(null, [])];
    forall m | m in s'
      ensures ParentOk(s', m) && s'[m].parent != n
    {
      assert m != n ==> ParentOk(s, m);
    }
    forall m | m in e'
      ensures NodeEdgesOk(e', m)
    {
      assert m != n ==> NodeEdgesOk(e, m);
    }
    if n.operatorId in chains {
      ChainInside(n.operatorId, s, chains[n.operatorId]);
    }
  }

  /** The first arrival of an operator needs no pointers. */
  lemma FirstArrival(s: map<StateNode, Pointers>, chains: Chains, index: map<int, StateNode>, n: StateNode)
    requires ChainsOk(s, chains) && Unattached(s, n) && IndexOk(index, chains) && n.operatorId !in chains
    ensures ChainsOk(s, Updated(chains, LinkOf(n, s[n].isOrdered)))
    ensures IndexOk(index[n.operatorId := n], Updated(chains, LinkOf(n, s[n].isOrdered)))
  {
    var c := [LinkOf(n, s[n].isOrdered)];
    assert LinkOk(s, c, 0);
    var index', chains' := index[n.operatorId := n], Updated(chains, c[0]);
    forall op | op in chains'
      ensures HeadOk(index', chains', op)
    {
      assert op != n.operatorId ==> HeadOk(index, chains, op);
    }
  }

  /** A later arrival. */
  lemma NextArrival(s: map<StateNode, Pointers>, chains: Chains, n: StateNode)
    requires ChainsOk(s, chains) && Unattached(s, n) && n.operatorId in chains && n !in Items(chains[n.operatorId])
    requires chains[n.operatorId] != []
    ensures Walkable(s, chains[n.operatorId], n) && ParentsInside(s)
    ensures ChainsOk(PointersAfter(s, chains[n.operatorId], n), Updated(chains, LinkOf(n, s[n].isOrdered)))
  {
    var c := chains[n.operatorId];
    ArrivalRefinesChain(n.operatorId, s, c, n);
    ArrivalKeepsParents(n.operatorId, s, c, n);
    forall op | op in chains && op != n.operatorId
      ensures ChainOk(op, PointersAfter(s, c, n), chains[op])
    {
      ArrivalKeepsOtherChains(n.operatorId, s, c, n, op, chains[op]);
    }
  }

  /** A later arrival leaves the index entry where it is. */
  lemma StillIndexed(s: map<StateNode, Pointers>, chains: Chains, index: map<int, StateNode>, l: Link<StateNode>)
    requires IndexOk(index, chains) && ChainsOk(s, chains) && l.item.operatorId in chains
    ensures chains[l.item.operatorId] != [] && IndexOk(index, Updated(chains, l))
  {
    var c := chains[l.item.operatorId];
    assert ChainOk(l.item.operatorId, s, c) && HeadOk(index, chains, l.item.operatorId);
    ArriveKeepsHead(c, l);
    var chains' := Updated(chains, l);
    forall op | op in chains'
      ensures HeadOk(index, chains', op)
    {
      assert HeadOk(index, chains, op);
    }
  }

  // ---------- Telling the upstream operators ----------

  /** The notification of operator `u` leaves an edge at node `m`. */
  ghost predicate ToldAt(test: CausalTest, chains: Chains, n: StateNode, u: int, m: StateNode) {
    u in chains && chains[u] != [] &&
    var l := chains[u][Placement(test, chains[u], n)];
    m == l.item && !Concurrent(l.stamp.vt, n.stamp.vt)
  }

  /** The last node down the chain up to which all but the first pass the test, unless the vectors there are concurrent. */
  lemma ToldAtIff(test: CausalTest, chains: Chains, n: StateNode, u: int, m: StateNode, k: nat)
    requires u in chains && k < |chains[u]|
    requires forall i :: 0 < i <= k ==> test(chains[u][i].stamp.vt, n.stamp.vt)
    requires k + 1 < |chains[u]| ==> !test(chains[u][k + 1].stamp.vt, n.stamp.vt)
    ensures ToldAt(test, chains, n, u, m) <==> m == chains[u][k].item && !Concurrent(chains[u][k].stamp.vt, n.stamp.vt)
  {
    PlacementIsLongestPrefix(test, chains[u], n, k);
  }

  lemma NotTold(test: CausalTest, chains: Chains, n: StateNode, u: int, m: StateNode)
    requires u !in chains || chains[u] == []
    ensures !ToldAt(test, chains, n, u, m)
  {
  }

  /** `r` is `e` after the operators in `done` have been notified of `n`. */
  ghost predicate Told(test: CausalTest, e: map<StateNode, Edges>, r: map<StateNode, Edges>,
                       chains: Chains, n: StateNode, done: set<int>)
  {
    && r.Keys == e.Keys && n in e
    && (forall m <- e :: r[m].after == e[m].after + if exists u <- done :: ToldAt(test, chains, n, u, m) then [n] else [])
    && (forall m <- e :: m != n ==> r[m].before == e[m].before)
    && (r[n].before != e[n].before ==>
          r[n].before != null && exists u <- done :: ToldAt(test, chains, n, u, r[n].before))
    && (forall u <- done, m <- e :: ToldAt(test, chains, n, u, m) ==> r[n].before != null)
  }

  lemma ToldNone(test: CausalTest, e: map<StateNode, Edges>, chains: Chains, n: StateNode)
    requires n in e
    ensures Told(test, e, e, chains, n, {})
  {
    assert forall m <- e :: e[m].after + [] == e[m].after;
  }

  /** Chains of different operators have no node in common. */
  ghost predicate Apart(chains: Chains) {
    forall op <- chains, l <- chains[op] :: l.item.operatorId == op
  }

  lemma ToldOnlyThere(test: CausalTest, chains: Chains, n: StateNode, u: int, m: StateNode)
    requires Apart(chains) && ToldAt(test, chains, n, u, m)
    ensures m.operatorId == u
  {
    assert chains[u][Placement(test, chains[u], n)] in chains[u];
  }

  lemma TellOneMoreAt(test: CausalTest, e: map<StateNode, Edges>, r: map<StateNode, Edges>,
                      chains: Chains, n: StateNode, done: set<int>, u: int, m: StateNode)
    requires Apart(chains) && Told(test, e, r, chains, n, done) && u !in done && m in e
    requires u in chains && chains[u] != [] && forall l <- chains[u] :: l.item in r
    ensures EdgesNotified(test, r, chains[u], n)[m].after ==
            e[m].after + if exists v <- done + {u} :: ToldAt(test, chains, n, v, m) then [n] else []
  {
    if v :| v in done + {u} && ToldAt(test, chains, n, v, m) {
      ToldOnlyThere(test, chains, n, v, m);
      if v in done && ToldAt(test, chains, n, u, m) {
        ToldOnlyThere(test, chains, n, u, m);
      }
      if w :| w in done && ToldAt(test, chains, n, w, m) {
        ToldOnlyThere(test, chains, n, w, m);
      }
    }
    assert e[m].after + [] + [n] == e[m].after + [n];
  }

  lemma TellOneMore(test: CausalTest, e: map<StateNode, Edges>, r: map<StateNode, Edges>,
                    chains: Chains, n: StateNode, done: set<int>, u: int)
    requires Apart(chains) && Told(test, e, r, chains, n, done) && u !in done
    requires u in chains && chains[u] != [] && forall l <- chains[u] :: l.item in r
    ensures Told(test, e, EdgesNotified(test, r, chains[u], n), chains, n, done + {u})
  {
    forall m | m in e
      ensures EdgesNotified(test, r, chains[u], n)[m].after ==
              e[m].after + if exists v <- done + {u} :: ToldAt(test, chains, n, v, m) then [n] else []
    {
      TellOneMoreAt(test, e, r, chains, n, done, u, m);
    }
    var l := chains[u][Placement(test, chains[u], n)];
    assert ToldAt(test, chains, n, u, l.item) || Concurrent(l.stamp.vt, n.stamp.vt);
  }
}
