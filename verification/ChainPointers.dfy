/**
 The child pointers from an operator's index entry spell out its chain: an
 arrival changes the pointers of the nodes exactly as it changes the chain.
 */
module ChainPointers {
  import opened Basics
  import opened VectorTimeStamps
  import opened Chain
  import opened StateNodes

  /** Link `i` of `c` is what its node's pointers say; a parent pointer that is not
      the link to the predecessor leads off the chain. */
  ghost predicate LinkOk(s: map<StateNode, Pointers>, c: seq<Link<StateNode>>, i: nat)
    requires i < |c|
  {
    && c[i].item in s && c[i].stamp == c[i].item.stamp
    && var p := s[c[i].item];
       && p.isOrdered == c[i].ordered
       && p.child == (if i + 1 < |c| then c[i + 1].item else null)
       && (c[i].linked ==> i > 0 && p.parent == c[i - 1].item)
       && (!c[i].linked ==> p.parent == null || p.parent !in Items(c))
  }

  ghost predicate ChainOk(op: int, s: map<StateNode, Pointers>, c: seq<Link<StateNode>>) {
    && Ascending(c) && HeadUnlinked(c)
    && (forall l <- c :: l.item.operatorId == op)
    && forall i {:trigger LinkOk(s, c, i)} :: 0 <= i < |c| ==> LinkOk(s, c, i)
  }

  ghost predicate ParentOk(s: map<StateNode, Pointers>, m: StateNode)
    requires m in s
  {
    s[m].parent != null ==> s[m].parent in s && s[m].parent.operatorId == m.operatorId
  }

  /** Parents belong to the same operator. */
  ghost predicate ParentsOk(s: map<StateNode, Pointers>) {
    forall m {:trigger ParentOk(s, m)} :: m in s ==> ParentOk(s, m)
  }

  lemma ParentsOkInside(s: map<StateNode, Pointers>)
    requires ParentsOk(s)
    ensures ParentsInside(s)
  {
    forall m | m in s
      ensures ParentInside(s, m)
    {
      assert ParentOk(s, m);
    }
  }

  /** `n` has just been captured: it points nowhere and nothing points back to it. */
  ghost predicate Unattached(s: map<StateNode, Pointers>, n: StateNode) {
    && n in s && s[n].parent == null && s[n].child == null
    && forall m <- s :: s[m].parent != n
  }

  lemma ItemAt(c: seq<Link<StateNode>>, i: nat)
    requires i < |c|
    ensures c[i].item in Items(c)
  {
    assert Items(c)[i] == c[i].item;
  }

  lemma DistinctChainItems(op: int, s: map<StateNode, Pointers>, c: seq<Link<StateNode>>, i: nat, j: nat)
    requires ChainOk(op, s, c) && i < |c| && j < |c| && c[i].item == c[j].item
    ensures i == j
  {
    assert LinkOk(s, c, i) && LinkOk(s, c, j);
    assert c[i].Tick() == c[j].Tick();
  }

  // ---------- The walk ----------

  lemma {:induction false} ChainIsWalkable(op: int, s: map<StateNode, Pointers>, c: seq<Link<StateNode>>, n: StateNode, i: nat)
    requires ChainOk(op, s, c) && n !in Items(c) && i < |c|
    ensures Walkable(s, c[i..], n)
    decreases |c| - i
  {
    assert LinkOk(s, c, i);
    ItemAt(c, i);
    if i + 1 < |c| {
      ChainIsWalkable(op, s, c, n, i + 1);
      assert c[i..][1..] == c[i + 1..];
    }
  }

  lemma {:induction false} PointersAfterAtPosition(s: map<StateNode, Pointers>, c: seq<Link<StateNode>>, n: StateNode)
    requires n in s && Walkable(s, c, n) && ParentsInside(s) && Ascending(c)
    requires Position(c, n.stamp.id) < |c| ==> c[Position(c, n.stamp.id)].item in s
    requires Last(c).item in s && Last(c).item != n
    ensures Position(c, n.stamp.id) <= |c|
    ensures var p := Position(c, n.stamp.id);
            PointersAfter(s, c, n) ==
              if p == |c| then ChildAppended(s, Last(c).item, n)
              else if c[p].Tick() == n.stamp.id || c[p].ordered then s
              else
                assert ParentInside(s, c[p].item);
                ParentSet(s, c[p].item, n)
    decreases |c|
  {
    PositionSplits(c, n.stamp.id);
    if c[0].Tick() < n.stamp.id {
      if |c| > 1 {
        PointersAfterAtPosition(s, c[1..], n);
      } else {
        assert Position(c[1..], n.stamp.id) == 0;
      }
    }
  }

  // ---------- Appending ----------

  lemma AppendOk(op: int, s: map<StateNode, Pointers>, c: seq<Link<StateNode>>, n: StateNode)
    requires ChainOk(op, s, c) && Unattached(s, n) && n.operatorId == op && n !in Items(c)
    requires Last(c).Tick() < n.stamp.id && Last(c).item in s && Last(c).item != n
    ensures ChainOk(op, ChildAppended(s, Last(c).item, n), c + [LinkOf(n, s[n].isOrdered).(linked := true)])
  {
    var d := c + [LinkOf(n, s[n].isOrdered).(linked := true)];
    var r := ChildAppended(s, Last(c).item, n);
    forall i | 0 <= i < |d|
      ensures d[i].item.operatorId == op && LinkOk(r, d, i)
    {
      if i < |c| {
        assert LinkOk(s, c, i);
        ItemAt(c, i);
        if c[i].item == Last(c).item {
          DistinctChainItems(op, s, c, i, |c| - 1);
        }
        assert Items(d) == Items(c) + [n];
      }
    }
  }

  // ---------- Inserting before link p ----------

  lemma ItemOfAdoption(c: seq<Link<StateNode>>, l: Link<StateNode>, p: nat, x: StateNode)
    requires p < |c| && x in Items(c[..p] + Adopt(c[p..], l))
    ensures x in Items(c) || (x == l.item && c[p].linked)
  {
    var d := c[..p] + Adopt(c[p..], l);
    AdoptShape(c, l, p);
    var j :| 0 <= j < |d| && Items(d)[j] == x;
    assert d[j].item == x;
    var k := if c[p].linked then 1 else 0;
    if j < p {
      ItemAt(c, j);
    } else if j >= p + k {
      ItemAt(c, j - k);
    }
  }

  ghost predicate Adopting(op: int, s: map<StateNode, Pointers>, c: seq<Link<StateNode>>, n: StateNode, p: nat) {
    && ChainOk(op, s, c) && ParentsOk(s) && Unattached(s, n) && n.operatorId == op && n !in Items(c)
    && p < |c| && c[p].item in s && (s[c[p].item].parent != null ==> s[c[p].item].parent in s)
  }

  ghost function Adopted(s: map<StateNode, Pointers>, c: seq<Link<StateNode>>, n: StateNode, p: nat): seq<Link<StateNode>>
    requires n in s && p < |c|
  {
    c[..p] + Adopt(c[p..], LinkOf(n, s[n].isOrdered))
  }

  /** A parent pointer off the old chain is off the new one. */
  lemma StillOffChain(op: int, s: map<StateNode, Pointers>, c: seq<Link<StateNode>>, n: StateNode, p: nat, i: nat)
    requires Adopting(op, s, c, n, p) && i < |c| && c[i].item in s && !c[i].linked
    ensures s[c[i].item].parent == null || s[c[i].item].parent !in Items(Adopted(s, c, n, p))
  {
    assert LinkOk(s, c, i);
    var q := s[c[i].item].parent;
    if q != null && q in Items(Adopted(s, c, n, p)) {
      ItemOfAdoption(c, LinkOf(n, s[n].isOrdered), p, q);
    }
  }

  /** Of the chain nodes only the linked predecessor of link `p` gets a new child. */
  lemma ParentOfAdopter(op: int, s: map<StateNode, Pointers>, c: seq<Link<StateNode>>, n: StateNode, p: nat, i: nat)
    requires Adopting(op, s, c, n, p) && i < |c|
    ensures c[i].item == s[c[p].item].parent <==> c[p].linked && i + 1 == p
  {
    assert LinkOk(s, c, p);
    ItemAt(c, i);
    if c[p].linked && c[i].item == c[p - 1].item {
      DistinctChainItems(op, s, c, i, p - 1);
    }
  }

  /** What setParent does to the pointers of link `i`, when that is not the adopter. */
  lemma OldPointers(op: int, s: map<StateNode, Pointers>, c: seq<Link<StateNode>>, n: StateNode, p: nat, i: nat)
    requires Adopting(op, s, c, n, p) && i < |c| && i != p && c[i].item in s
    ensures ParentSet(s, c[p].item, n)[c[i].item] ==
            s[c[i].item].(child := if c[p].linked && i + 1 == p then n else s[c[i].item].child)
  {
    assert LinkOk(s, c, i);
    ItemAt(c, i);
    ParentOfAdopter(op, s, c, n, p, i);
    if c[i].item == c[p].item {
      DistinctChainItems(op, s, c, i, p);
    }
  }

  /** A link before `p` in the new chain. */
  lemma EarlierLinkOk(op: int, s: map<StateNode, Pointers>, c: seq<Link<StateNode>>, n: StateNode, p: nat, i: nat)
    requires Adopting(op, s, c, n, p) && i < p
    ensures var d := Adopted(s, c, n, p);
            i < |d| && d[i].item.operatorId == op && LinkOk(ParentSet(s, c[p].item, n), d, i)
  {
    AdoptShape(c, LinkOf(n, s[n].isOrdered), p);
    assert LinkOk(s, c, i);
    OldPointers(op, s, c, n, p, i);
    if !c[i].linked {
      StillOffChain(op, s, c, n, p, i);
    }
  }

  /** The neighbourhood of an old link beyond `p` in the new chain. */
  lemma LaterNeighbours(s: map<StateNode, Pointers>, c: seq<Link<StateNode>>, n: StateNode, p: nat, i: nat)
    requires n in s && p < i < |c|
    ensures var d := Adopted(s, c, n, p);
            var j := if c[p].linked then i + 1 else i;
            && |d| - j == |c| - i && d[j] == c[i] && d[j - 1].item == c[i - 1].item
            && (i + 1 < |c| ==> d[j + 1].item == c[i + 1].item)
  {
    AdoptShape(c, LinkOf(n, s[n].isOrdered), p);
  }

  /** A link after `p` in the new chain. */
  lemma LaterLinkOk(op: int, s: map<StateNode, Pointers>, c: seq<Link<StateNode>>, n: StateNode, p: nat, i: nat)
    requires Adopting(op, s, c, n, p) && p < i < |c|
    ensures var d := Adopted(s, c, n, p);
            var j := if c[p].linked then i + 1 else i;
            j < |d| && d[j].item.operatorId == op && LinkOk(ParentSet(s, c[p].item, n), d, j)
  {
    LaterNeighbours(s, c, n, p, i);
    assert LinkOk(s, c, i);
    OldPointers(op, s, c, n, p, i);
    if !c[i].linked {
      StillOffChain(op, s, c, n, p, i);
    }
  }

  /** The adopting link itself. */
  lemma AdopterLinkOk(op: int, s: map<StateNode, Pointers>, c: seq<Link<StateNode>>, n: StateNode, p: nat)
    requires Adopting(op, s, c, n, p)
    ensures var d := Adopted(s, c, n, p);
            var j := if c[p].linked then p + 1 else p;
            j < |d| && d[j].item.operatorId == op && LinkOk(ParentSet(s, c[p].item, n), d, j)
  {
    AdoptShape(c, LinkOf(n, s[n].isOrdered), p);
    assert LinkOk(s, c, p);
    ItemAt(c, p);
    ParentOfAdopter(op, s, c, n, p, p);
    if !c[p].linked && n in Items(Adopted(s, c, n, p)) {
      ItemOfAdoption(c, LinkOf(n, s[n].isOrdered), p, n);
    }
  }

  /** The new link, if the chain gains one. */
  lemma NewLinkOk(op: int, s: map<StateNode, Pointers>, c: seq<Link<StateNode>>, n: StateNode, p: nat)
    requires Adopting(op, s, c, n, p) && c[p].linked
    ensures var d := Adopted(s, c, n, p);
            p < |d| && d[p].item.operatorId == op && LinkOk(ParentSet(s, c[p].item, n), d, p)
  {
    AdoptShape(c, LinkOf(n, s[n].isOrdered), p);
    assert LinkOk(s, c, p);
    ItemAt(c, p);
  }

  lemma AdoptedLength(s: map<StateNode, Pointers>, c: seq<Link<StateNode>>, n: StateNode, p: nat)
    requires n in s && p < |c|
    ensures |Adopted(s, c, n, p)| == |c| + if c[p].linked then 1 else 0
  {
    AdoptShape(c, LinkOf(n, s[n].isOrdered), p);
  }

  /** Link `j` of the new chain, when it is the new link or the adopter. */
  lemma NearLinkOk(op: int, s: map<StateNode, Pointers>, c: seq<Link<StateNode>>, n: StateNode, p: nat, j: nat)
    requires Adopting(op, s, c, n, p) && p <= j <= p + (if c[p].linked then 1 else 0) < |Adopted(s, c, n, p)|
    ensures Adopted(s, c, n, p)[j].item.operatorId == op
    ensures LinkOk(ParentSet(s, c[p].item, n), Adopted(s, c, n, p), j)
  {
    if j == p && c[p].linked {
      NewLinkOk(op, s, c, n, p);
    } else {
      AdopterLinkOk(op, s, c, n, p);
    }
  }

  /** `op`'s link `j` of the new chain. */
  ghost predicate AdoptedLinkOk(op: int, s: map<StateNode, Pointers>, c: seq<Link<StateNode>>, n: StateNode, p: nat, j: nat)
    requires p < |c| && n in s && c[p].item in s && (s[c[p].item].parent != null ==> s[c[p].item].parent in s)
    requires j < |Adopted(s, c, n, p)|
  {
    Adopted(s, c, n, p)[j].item.operatorId == op && LinkOk(ParentSet(s, c[p].item, n), Adopted(s, c, n, p), j)
  }

  lemma EarlierLinksOk(op: int, s: map<StateNode, Pointers>, c: seq<Link<StateNode>>, n: StateNode, p: nat)
    requires Adopting(op, s, c, n, p)
    ensures p <= |Adopted(s, c, n, p)| && forall j :: 0 <= j < p ==> AdoptedLinkOk(op, s, c, n, p, j)
  {
    AdoptedLength(s, c, n, p);
    forall j | 0 <= j < p
      ensures AdoptedLinkOk(op, s, c, n, p, j)
    {
      EarlierLinkOk(op, s, c, n, p, j);
    }
  }

  lemma LaterLinksOk(op: int, s: map<StateNode, Pointers>, c: seq<Link<StateNode>>, n: StateNode, p: nat, k: nat)
    requires Adopting(op, s, c, n, p) && k == if c[p].linked then 1 else 0
    ensures forall j :: p + k < j < |Adopted(s, c, n, p)| ==> AdoptedLinkOk(op, s, c, n, p, j)
  {
    AdoptedLength(s, c, n, p);
    forall j | p + k < j < |Adopted(s, c, n, p)|
      ensures AdoptedLinkOk(op, s, c, n, p, j)
    {
      LaterLinkOk(op, s, c, n, p, j - k);
    }
  }

  lemma NearLinksOk(op: int, s: map<StateNode, Pointers>, c: seq<Link<StateNode>>, n: StateNode, p: nat, k: nat)
    requires Adopting(op, s, c, n, p) && k == if c[p].linked then 1 else 0
    ensures p + k < |Adopted(s, c, n, p)| && forall j :: p <= j <= p + k ==> AdoptedLinkOk(op, s, c, n, p, j)
  {
    AdoptedLength(s, c, n, p);
    NearLinkOk(op, s, c, n, p, p);
    NearLinkOk(op, s, c, n, p, p + k);
  }

  lemma AdoptOk(op: int, s: map<StateNode, Pointers>, c: seq<Link<StateNode>>, n: StateNode, p: nat)
    requires Adopting(op, s, c, n, p)
    requires n.stamp.id < c[p].Tick() && (p > 0 ==> c[p - 1].Tick() < n.stamp.id)
    ensures ChainOk(op, ParentSet(s, c[p].item, n), Adopted(s, c, n, p))
  {
    var k := if c[p].linked then 1 else 0;
    AdoptionAscending(Adopted(s, c, n, p), c, LinkOf(n, s[n].isOrdered), p);
    EarlierLinksOk(op, s, c, n, p);
    NearLinksOk(op, s, c, n, p, k);
    LaterLinksOk(op, s, c, n, p, k);
    var d, r := Adopted(s, c, n, p), ParentSet(s, c[p].item, n);
    forall j | 0 <= j < |d|
      ensures d[j].item.operatorId == op && LinkOk(r, d, j)
    {
      assert AdoptedLinkOk(op, s, c, n, p, j);
    }
  }

  lemma AdoptionAscending(d: seq<Link<StateNode>>, c: seq<Link<StateNode>>, n: Link<StateNode>, p: nat)
    requires Ascending(c) && HeadUnlinked(c) && p < |c|
    requires n.Tick() < c[p].Tick() && (p > 0 ==> c[p - 1].Tick() < n.Tick())
    requires d == c[..p] + Adopt(c[p..], n)
    ensures Ascending(d) && HeadUnlinked(d)
  {
    AdoptShape(c, n, p);
    if c[p].linked {
      InsertedAscending(c, d, n, p);
    } else {
      SameTicksAscending(c, d);
    }
  }

  lemma SameTicksAscending(c: seq<Link<StateNode>>, d: seq<Link<StateNode>>)
    requires Ascending(c) && HeadUnlinked(c) && |d| == |c|
    requires forall i :: 0 <= i < |c| ==> SameLink(d[i], c[i])
    ensures Ascending(d) && HeadUnlinked(d)
  {
    forall i, j | 0 <= i < j < |d|
      ensures d[i].Tick() < d[j].Tick()
    {
      assert SameLink(d[i], c[i]) && SameLink(d[j], c[j]);
    }
    assert SameLink(d[0], c[0]);
  }

  // ---------- One arrival ----------

  /** An arrival at a chain: `n` is new to it. */
  ghost predicate Arriving(op: int, s: map<StateNode, Pointers>, c: seq<Link<StateNode>>, n: StateNode) {
    ChainOk(op, s, c) && ParentsOk(s) && Unattached(s, n) && n.operatorId == op && n !in Items(c)
  }

  lemma LinkInside(op: int, s: map<StateNode, Pointers>, c: seq<Link<StateNode>>, n: StateNode, i: nat)
    requires Arriving(op, s, c, n) && i < |c|
    ensures c[i].item in s && c[i].item != n && c[i].item.operatorId == op && ParentOk(s, c[i].item)
  {
    assert LinkOk(s, c, i) && c[i] in c;
    ItemAt(c, i);
    assert ParentOk(s, c[i].item);
  }

  /** What an arrival does to the pointers: nothing, or an adoption, or an appending. */
  lemma ArrivalIs(op: int, s: map<StateNode, Pointers>, c: seq<Link<StateNode>>, n: StateNode) returns (p: nat)
    requires Arriving(op, s, c, n)
    ensures p == Position(c, n.stamp.id) <= |c| && Walkable(s, c, n) && ParentsInside(s)
    ensures Last(c).item in s && Last(c).item != n && Last(c).item.operatorId == op
    ensures p < |c| ==> c[p].item in s && c[p].item.operatorId == op && ParentOk(s, c[p].item)
    ensures PointersAfter(s, c, n) ==
              if p == |c| then ChildAppended(s, Last(c).item, n)
              else if c[p].Tick() == n.stamp.id || c[p].ordered then s
              else ParentSet(s, c[p].item, n)
  {
    p := Position(c, n.stamp.id);
    ParentsOkInside(s);
    ChainIsWalkable(op, s, c, n, 0);
    assert c[0..] == c;
    PositionSplits(c, n.stamp.id);
    LinkInside(op, s, c, n, |c| - 1);
    if p < |c| {
      LinkInside(op, s, c, n, p);
    }
    PointersAfterAtPosition(s, c, n);
  }

  /** The pointers after an arrival spell out the chain after the arrival. */
  lemma ArrivalRefinesChain(op: int, s: map<StateNode, Pointers>, c: seq<Link<StateNode>>, n: StateNode)
    requires Arriving(op, s, c, n)
    ensures Walkable(s, c, n) && ParentsInside(s)
    ensures ChainOk(op, PointersAfter(s, c, n), Arrive(c, LinkOf(n, s[n].isOrdered)))
  {
    var p := ArrivalIs(op, s, c, n);
    PositionSplits(c, n.stamp.id);
    ArriveAtPosition(c, LinkOf(n, s[n].isOrdered));
    if p == |c| {
      AppendOk(op, s, c, n);
    } else if c[p].Tick() != n.stamp.id && !c[p].ordered {
      AdoptOk(op, s, c, n, p);
    }
  }

  lemma AppendingKeepsChain(op: int, s: map<StateNode, Pointers>, t: StateNode, n: StateNode, o: seq<Link<StateNode>>)
    requires ChainOk(op, s, o) && t in s && n in s && t != n && t.operatorId != op && n.operatorId != op
    ensures ChainOk(op, ChildAppended(s, t, n), o)
  {
    forall i | 0 <= i < |o|
      ensures LinkOk(ChildAppended(s, t, n), o, i)
    {
      assert LinkOk(s, o, i) && o[i] in o;
    }
  }

  lemma AdoptingKeepsChain(op: int, s: map<StateNode, Pointers>, t: StateNode, n: StateNode, o: seq<Link<StateNode>>)
    requires ChainOk(op, s, o) && t in s && n in s && ParentOk(s, t) && t.operatorId != op && n.operatorId != op
    ensures ChainOk(op, ParentSet(s, t, n), o)
  {
    forall i | 0 <= i < |o|
      ensures LinkOk(ParentSet(s, t, n), o, i)
    {
      assert LinkOk(s, o, i) && o[i] in o;
    }
  }

  /** An arrival at one operator leaves the chains of all others as they are. */
  lemma ArrivalKeepsOtherChains(op: int, s: map<StateNode, Pointers>, c: seq<Link<StateNode>>, n: StateNode,
                                other: int, o: seq<Link<StateNode>>)
    requires Arriving(op, s, c, n) && other != op && ChainOk(other, s, o)
    ensures Walkable(s, c, n) && ParentsInside(s) && ChainOk(other, PointersAfter(s, c, n), o)
  {
    var p := ArrivalIs(op, s, c, n);
    if p == |c| {
      AppendingKeepsChain(other, s, Last(c).item, n, o);
    } else {
      AdoptingKeepsChain(other, s, c[p].item, n, o);
    }
  }

  lemma AppendingKeepsParents(s: map<StateNode, Pointers>, t: StateNode, n: StateNode)
    requires ParentsOk(s) && t in s && n in s && t != n && t.operatorId == n.operatorId
    ensures ParentsOk(ChildAppended(s, t, n))
  {
    forall m | m in s
      ensures ParentOk(ChildAppended(s, t, n), m)
    {
      assert ParentOk(s, m);
    }
  }

  lemma AdoptingKeepsParents(s: map<StateNode, Pointers>, t: StateNode, n: StateNode)
    requires ParentsOk(s) && t in s && n in s && ParentOk(s, t) && t.operatorId == n.operatorId
    ensures ParentsOk(ParentSet(s, t, n))
  {
    forall m | m in s
      ensures ParentOk(ParentSet(s, t, n), m)
    {
      assert ParentOk(s, m);
    }
  }

  /** After an arrival parents still belong to the same operator. */
  lemma ArrivalKeepsParents(op: int, s: map<StateNode, Pointers>, c: seq<Link<StateNode>>, n: StateNode)
    requires Arriving(op, s, c, n)
    ensures Walkable(s, c, n) && ParentsInside(s) && ParentsOk(PointersAfter(s, c, n))
  {
    var p := ArrivalIs(op, s, c, n);
    if p == |c| {
      AppendingKeepsParents(s, Last(c).item, n);
    } else {
      AdoptingKeepsParents(s, c[p].item, n);
    }
  }
}
