/**
 What the parent and child pointers of one operator's nodes amount to: a chain
 of links, and an arrival rule on it.
 */
module Chain {
  import opened Basics
  import opened VectorTimeStamps

  /** One node of a chain; `linked` says that its parent pointer is its chain predecessor. */
  datatype Link<+T> = Link(item: T, stamp: VectorTimeStamp, ordered: bool, linked: bool) {
    function Tick(): int32 { stamp.id }
  }

  ghost predicate Ascending<T>(c: seq<Link<T>>) {
    forall i, j :: 0 <= i < j < |c| ==> c[i].Tick() < c[j].Tick()
  }

  function Items<T>(c: seq<Link<T>>): (items: seq<T>)
    ensures |items| == |c| && forall i :: 0 <= i < |c| ==> items[i] == c[i].item
  {
    seq(|c|, i requires 0 <= i < |c| => c[i].item)
  }

  /** setParent on the first link of `c`. */
  function Adopt<T>(c: seq<Link<T>>, n: Link<T>): seq<Link<T>>
    requires c != []
  {
    var first := c[0].(ordered := c[0].stamp.IsNextTick(n.stamp));
    (if c[0].linked then [n.(linked := false)] else []) + [first] + c[1..]
  }

  /** orderStateNode, started at the first link of `c`. */
  function Arrive<T>(c: seq<Link<T>>, n: Link<T>): seq<Link<T>>
    requires c != []
  {
    if c[0].stamp.IsEarlierTick(n.stamp) then
      if c[0].ordered then c else Adopt(c, n)
    else if c[0].stamp.IsLaterTick(n.stamp) then
      if |c| == 1 then c + [n.(linked := true)] else [c[0]] + Arrive(c[1..], n)
    else c
  }

  /** All arrivals of one operator; the first is the index entry for good. */
  function ChainOf<T>(arrivals: seq<Link<T>>): (c: seq<Link<T>>)
    ensures arrivals == [] <==> c == []
    decreases |arrivals|
  {
    if arrivals == [] then []
    else if |arrivals| == 1 then [arrivals[0].(linked := false)]
    else
      var c := ChainOf(Before(arrivals));
      NonEmpty(c, Last(arrivals));
      Arrive(c, Last(arrivals))
  }

  lemma NonEmpty<T>(c: seq<Link<T>>, n: Link<T>)
    requires c != []
    ensures Arrive(c, n) != []
  {
  }

  // ---------- One arrival ----------

  /** How many links come before a tick. */
  function Position<T>(c: seq<Link<T>>, tick: int32): nat {
    if c == [] || c[0].Tick() >= tick then 0 else 1 + Position(c[1..], tick)
  }

  lemma {:induction false} PositionSplits<T>(c: seq<Link<T>>, tick: int32)
    requires Ascending(c)
    ensures Position(c, tick) <= |c|
    ensures forall i :: 0 <= i < Position(c, tick) ==> c[i].Tick() < tick
    ensures forall i :: Position(c, tick) <= i < |c| ==> tick <= c[i].Tick()
  {
    if c != [] && c[0].Tick() < tick {
      PositionSplits(c[1..], tick);
    }
  }

  /** The arrival is dropped before link `s` instead of being put there. */
  predicate Refused<T>(s: Link<T>, n: Link<T>) {
    s.Tick() == n.Tick() || s.ordered || !s.linked
  }

  lemma Prepend<T>(x: T, rest: seq<T>, p: nat, tail: seq<T>)
    requires 0 < p <= |rest| + 1
    ensures [x] + (rest[..p - 1] + tail) == ([x] + rest)[..p] + tail
    ensures ([x] + rest)[p..] == rest[p - 1..]
  {
  }

  /** What the arrival does at position `p`. */
  function ArriveAt<T>(c: seq<Link<T>>, n: Link<T>, p: nat): seq<Link<T>>
    requires p <= |c|
  {
    if p == |c| then c + [n.(linked := true)]
    else if c[p].Tick() == n.Tick() || c[p].ordered then c
    else c[..p] + Adopt(c[p..], n)
  }

  lemma ArriveAtNext<T>(first: Link<T>, rest: seq<Link<T>>, n: Link<T>, p: nat)
    requires p <= |rest|
    ensures [first] + ArriveAt(rest, n, p) == ArriveAt([first] + rest, n, p + 1)
  {
    var c := [first] + rest;
    if p == |rest| {
      assert [first] + (rest + [n.(linked := true)]) == c + [n.(linked := true)];
    } else {
      assert c[p + 1] == rest[p];
      Prepend(first, rest, p + 1, Adopt(rest[p..], n));
    }
  }

  /** Found at once. */
  lemma ArriveAtHead<T>(c: seq<Link<T>>, n: Link<T>)
    requires c != [] && n.Tick() <= c[0].Tick()
    ensures Arrive(c, n) == ArriveAt(c, n, 0)
  {
    assert c[..0] + Adopt(c[0..], n) == Adopt(c, n) by {
      assert c[0..] == c;
    }
  }

  /** Past the end. */
  lemma ArriveAtEnd<T>(c: seq<Link<T>>, n: Link<T>)
    requires |c| == 1 && c[0].Tick() < n.Tick()
    ensures Position(c, n.Tick()) == 1 && Arrive(c, n) == ArriveAt(c, n, 1)
  {
    assert Position(c[1..], n.Tick()) == 0;
  }

  /** Further down. */
  lemma ArriveAtRest<T>(c: seq<Link<T>>, n: Link<T>, p: nat)
    requires |c| > 1 && c[0].Tick() < n.Tick() && p < |c|
    requires Arrive(c[1..], n) == ArriveAt(c[1..], n, p)
    ensures Arrive(c, n) == ArriveAt(c, n, p + 1)
  {
    assert c == [c[0]] + c[1..];
    ArriveAtNext(c[0], c[1..], n, p);
  }

  /** Where orderStateNode stops and what it does there. */
  lemma {:induction false} ArriveAtPosition<T>(c: seq<Link<T>>, n: Link<T>)
    requires c != []
    ensures Position(c, n.Tick()) <= |c|
    ensures Arrive(c, n) == ArriveAt(c, n, Position(c, n.Tick()))
  {
    if n.Tick() <= c[0].Tick() {
      ArriveAtHead(c, n);
    } else if |c| == 1 {
      ArriveAtEnd(c, n);
    } else {
      ArriveAtPosition(c[1..], n);
      ArriveAtRest(c, n, Position(c[1..], n.Tick()));
    }
  }

  // ---------- Whole runs ----------

  ghost predicate HeadUnlinked<T>(c: seq<Link<T>>) {
    c != [] && !c[0].linked
  }

  /** Links that differ at most in isOrdered. */
  ghost predicate SameLink<T>(a: Link<T>, b: Link<T>) {
    a.item == b.item && a.stamp == b.stamp && a.linked == b.linked
  }

  lemma AdoptShape<T>(c: seq<Link<T>>, n: Link<T>, p: nat)
    requires p < |c|
    ensures var d := c[..p] + Adopt(c[p..], n);
            var k := if c[p].linked then 1 else 0;
            && |d| == |c| + k
            && (c[p].linked ==> d[p] == n.(linked := false))
            && (forall i :: 0 <= i < p ==> d[i] == c[i])
            && d[p + k] == c[p].(ordered := c[p].stamp.IsNextTick(n.stamp))
            && (forall i :: p + k < i < |d| ==> d[i] == c[i - k])
  {
    var a := Adopt(c[p..], n);
    assert c[p..][0] == c[p];
    assert c[p..][1..] == c[p + 1..];
    assert a == (if c[p].linked then [n.(linked := false)] else [])
                + [c[p].(ordered := c[p].stamp.IsNextTick(n.stamp))] + c[p + 1..];
  }

  /** The chain `d` after arrival `n` at position `p` of `c`, index by index. */
  ghost predicate Shape<T>(d: seq<Link<T>>, c: seq<Link<T>>, n: Link<T>, p: nat) {
    && p <= |c|
    && (p == |c| ==> d == c + [n.(linked := true)])
    && (p < |c| && Refused(c[p], n) ==>
          |d| == |c| && forall i :: 0 <= i < |c| ==> SameLink(d[i], c[i]))
    && (p < |c| && !Refused(c[p], n) ==>
          && |d| == |c| + 1
          && d[p] == n.(linked := false)
          && (forall i :: 0 <= i < p ==> d[i] == c[i])
          && (forall i :: p < i <= |c| ==> SameLink(d[i], c[i - 1])))
  }

  lemma AdoptionShape<T>(d: seq<Link<T>>, c: seq<Link<T>>, n: Link<T>, p: nat)
    requires p < |c| && c[p].Tick() != n.Tick() && !c[p].ordered
    requires d == ArriveAt(c, n, p)
    ensures Shape(d, c, n, p)
  {
    AdoptShape(c, n, p);
    if c[p].linked {
      assert !Refused(c[p], n);
    } else {
      forall i | 0 <= i < |c|
        ensures SameLink(d[i], c[i])
      {
      }
    }
  }

  lemma ArriveShape<T>(c: seq<Link<T>>, n: Link<T>)
    requires c != [] && Ascending(c)
    ensures Shape(Arrive(c, n), c, n, Position(c, n.Tick()))
  {
    var p := Position(c, n.Tick());
    ArriveAtPosition(c, n);
    if p < |c| && c[p].Tick() != n.Tick() && !c[p].ordered {
      AdoptionShape(Arrive(c, n), c, n, p);
    }
  }

  lemma ItemsOfShape<T>(d: seq<Link<T>>, c: seq<Link<T>>, n: Link<T>, p: nat)
    requires Shape(d, c, n, p)
    ensures Items(d) == if p < |c| && Refused(c[p], n) then Items(c) else Items(c)[..p] + [n.item] + Items(c)[p..]
  {
    forall i | 0 <= i < |d|
      ensures p < |c| && Refused(c[p], n) ==> d[i].item == c[i].item
      ensures p < |c| && !Refused(c[p], n) && i > p ==> d[i].item == c[i - 1].item
    {
      if p < |c| {
        assert SameLink(d[i], c[if Refused(c[p], n) || i < p then i else if i == p then i else i - 1]) || i == p;
      }
    }
  }

  /** The chain gains the arrival exactly when it lies beyond the last tick, or its
      successor was appended in its own time and is not ordered. */
  lemma ArriveItems<T>(c: seq<Link<T>>, n: Link<T>)
    requires c != [] && Ascending(c)
    ensures Position(c, n.Tick()) <= |c|
    ensures var p := Position(c, n.Tick());
            Items(Arrive(c, n)) ==
              if p < |c| && Refused(c[p], n) then Items(c) else Items(c)[..p] + [n.item] + Items(c)[p..]
  {
    ArriveShape(c, n);
    ItemsOfShape(Arrive(c, n), c, n, Position(c, n.Tick()));
  }

  lemma ArriveAscending<T>(c: seq<Link<T>>, n: Link<T>)
    requires c != [] && Ascending(c) && HeadUnlinked(c)
    ensures Ascending(Arrive(c, n)) && HeadUnlinked(Arrive(c, n))
  {
    var p := Position(c, n.Tick());
    PositionSplits(c, n.Tick());
    ArriveShape(c, n);
    var d := Arrive(c, n);
    if p < |c| {
      if Refused(c[p], n) {
        forall i, j | 0 <= i < j < |d| ensures d[i].Tick() < d[j].Tick() {
          assert SameLink(d[i], c[i]) && SameLink(d[j], c[j]);
        }
        assert SameLink(d[0], c[0]);
      } else {
        InsertedAscending(c, d, n, p);
      }
    }
  }

  lemma InsertedAscending<T>(c: seq<Link<T>>, d: seq<Link<T>>, n: Link<T>, p: nat)
    requires Ascending(c) && p < |c| && |d| == |c| + 1 && d[p].stamp == n.stamp
    requires forall i :: 0 <= i < p ==> d[i] == c[i] && c[i].Tick() < n.Tick()
    requires forall i :: p < i <= |c| ==> SameLink(d[i], c[i - 1])
    requires n.Tick() < c[p].Tick()
    ensures Ascending(d)
  {
    forall i, j | 0 <= i < j < |d|
      ensures d[i].Tick() < d[j].Tick()
    {
      assert i > p ==> SameLink(d[i], c[i - 1]);
      assert j > p ==> SameLink(d[j], c[j - 1]);
      assert n.Tick() < c[if j > p then j - 1 else p].Tick();
    }
  }

  lemma ArriveKeepsHead<T>(c: seq<Link<T>>, n: Link<T>)
    requires HeadUnlinked(c)
    ensures Arrive(c, n) != [] && Arrive(c, n)[0].item == c[0].item
  {
  }

  /** Whatever the order of arrival, the chain is strictly ascending and its head has no link back. */
  lemma {:induction false} ChainAscending<T>(arrivals: seq<Link<T>>)
    requires arrivals != []
    ensures Ascending(ChainOf(arrivals)) && HeadUnlinked(ChainOf(arrivals))
    decreases |arrivals|
  {
    if |arrivals| > 1 {
      ChainAscending(Before(arrivals));
      ArriveAscending(ChainOf(Before(arrivals)), Last(arrivals));
    }
  }

  /** Arrival `j` finds a place. */
  ghost predicate Taken<T>(arrivals: seq<Link<T>>, j: nat)
    requires j < |arrivals|
  {
    j == 0 ||
    var c := ChainOf(arrivals[..j]);
    var p := Position(c, arrivals[j].Tick());
    p < |c| ==> !Refused(c[p], arrivals[j])
  }

  ghost predicate DistinctItems<T>(arrivals: seq<Link<T>>) {
    forall i, j :: 0 <= i < j < |arrivals| ==> arrivals[i].item != arrivals[j].item
  }

  lemma TakenBefore<T>(arrivals: seq<Link<T>>, j: nat)
    requires j + 1 < |arrivals|
    ensures Taken(Before(arrivals), j) <==> Taken(arrivals, j)
  {
    assert Before(arrivals)[..j] == arrivals[..j];
  }

  lemma InInsertion<X>(s: seq<X>, p: nat, y: X, x: X)
    requires p <= |s|
    ensures x in s[..p] + [y] + s[p..] <==> x in s || x == y
  {
    assert s == s[..p] + s[p..];
  }

  lemma ItemsAfterArrival<T>(c: seq<Link<T>>, n: Link<T>, x: T)
    requires c != [] && Ascending(c)
    ensures Position(c, n.Tick()) <= |c|
    ensures var p := Position(c, n.Tick());
            x in Items(Arrive(c, n)) <==> x in Items(c) || (x == n.item && (p < |c| ==> !Refused(c[p], n)))
  {
    ArriveItems(c, n);
    InInsertion(Items(c), Position(c, n.Tick()), n.item, x);
  }

  /** The chain holds exactly the arrivals that found a place: none is dropped later, none comes from elsewhere. */
  lemma {:induction false} ChainHoldsTheTaken<T>(arrivals: seq<Link<T>>, x: T)
    requires arrivals != []
    ensures x in Items(ChainOf(arrivals)) <==> exists j :: 0 <= j < |arrivals| && arrivals[j].item == x && Taken(arrivals, j)
    decreases |arrivals|
  {
    if |arrivals| == 1 {
      assert Taken(arrivals, 0);
      assert Items(ChainOf(arrivals))[0] == arrivals[0].item;
    } else {
      var past, last := Before(arrivals), |arrivals| - 1;
      ChainHoldsTheTaken(past, x);
      ChainAscending(past);
      ItemsAfterArrival(ChainOf(past), Last(arrivals), x);
      assert arrivals[..last] == past;
      forall j | 0 <= j < last
        ensures Taken(past, j) <==> Taken(arrivals, j)
      {
        TakenBefore(arrivals, j);
      }
      if x in Items(ChainOf(past)) {
        var j :| 0 <= j < |past| && past[j].item == x && Taken(past, j);
        assert arrivals[j].item == x && Taken(arrivals, j);
      }
    }
  }

  /** Arrival `j` went to the end of the chain, beyond everything kept so far. */
  ghost predicate Appended<T>(arrivals: seq<Link<T>>, j: nat)
    requires j < |arrivals|
  {
    j > 0 && arrivals[j].Tick() > Last(ChainOf(arrivals[..j])).Tick()
  }

  /** Link `i` of a chain after an arrival was there before, or is the arrival. */
  lemma ArrivedLink<T>(c: seq<Link<T>>, n: Link<T>, i: nat) returns (k: nat)
    requires c != [] && Ascending(c) && i < |Arrive(c, n)|
    ensures k < |c| ==> SameLink(Arrive(c, n)[i], c[k])
    ensures k >= |c| ==> Arrive(c, n)[i].item == n.item
    ensures k >= |c| ==> (Arrive(c, n)[i].linked <==> n.Tick() > Last(c).Tick())
  {
    var p := Position(c, n.Tick());
    PositionSplits(c, n.Tick());
    ArriveShape(c, n);
    if p < |c| && !Refused(c[p], n) {
      k := if i < p then i else if i == p then |c| else i - 1;
      assert n.Tick() <= c[p].Tick() <= Last(c).Tick();
    } else {
      k := i;
    }
  }

  lemma ArrivalOf<T>(arrivals: seq<Link<T>>, k: nat) returns (h: nat)
    requires arrivals != [] && k < |ChainOf(arrivals)|
    ensures h < |arrivals| && arrivals[h].item == ChainOf(arrivals)[k].item
  {
    var c := ChainOf(arrivals);
    ChainHoldsTheTaken(arrivals, c[k].item);
    assert Items(c)[k] == c[k].item;
    h :| 0 <= h < |arrivals| && arrivals[h].item == c[k].item && Taken(arrivals, h);
  }

  /** A link points back to its predecessor exactly when its node was appended, so the
      nodes an arrival may be put in front of are those that came in their own time. */
  lemma {:induction false} LinkedIffAppended<T>(arrivals: seq<Link<T>>, i: nat, j: nat)
    requires arrivals != [] && DistinctItems(arrivals)
    requires i < |ChainOf(arrivals)| && j < |arrivals| && ChainOf(arrivals)[i].item == arrivals[j].item
    ensures ChainOf(arrivals)[i].linked <==> Appended(arrivals, j)
    decreases |arrivals|
  {
    if |arrivals| > 1 {
      var past, last := Before(arrivals), |arrivals| - 1;
      ChainAscending(past);
      var k := ArrivedLink(ChainOf(past), Last(arrivals), i);
      assert arrivals[..last] == past;
      if k < |ChainOf(past)| {
        var h := ArrivalOf(past, k);
        assert past[h] == arrivals[h] && h == j;
        LinkedIffAppended(past, k, j);
        assert past[..j] == arrivals[..j];
      } else {
        assert j == last;
      }
    }
  }

  lemma LastAfterArrival<T>(c: seq<Link<T>>, n: Link<T>)
    requires c != [] && Ascending(c)
    ensures Arrive(c, n) != []
    ensures Last(Arrive(c, n)).Tick() == if n.Tick() > Last(c).Tick() then n.Tick() else Last(c).Tick()
  {
    var p := Position(c, n.Tick());
    PositionSplits(c, n.Tick());
    ArriveShape(c, n);
    var d := Arrive(c, n);
    if p < |c| {
      assert c[p].Tick() <= Last(c).Tick();
      if Refused(c[p], n) {
        assert SameLink(d[|c| - 1], c[|c| - 1]);
      } else {
        assert SameLink(d[|c|], c[|c| - 1]);
      }
    }
  }

  /** Arrival `j` has the highest tick of all. */
  ghost predicate Highest<T>(arrivals: seq<Link<T>>, j: nat)
    requires j < |arrivals|
  {
    forall i :: 0 <= i < |arrivals| ==> arrivals[i].Tick() <= arrivals[j].Tick()
  }

  lemma HighestSoFar<T>(arrivals: seq<Link<T>>, j: nat) returns (h: nat)
    requires |arrivals| > 1 && j < |arrivals| - 1 && Highest(Before(arrivals), j)
    ensures h < |arrivals| && Highest(arrivals, h)
    ensures arrivals[h].Tick() == if Last(arrivals).Tick() > arrivals[j].Tick() then Last(arrivals).Tick() else arrivals[j].Tick()
  {
    var past := Before(arrivals);
    h := if Last(arrivals).Tick() > arrivals[j].Tick() then |past| else j;
    forall i | 0 <= i < |arrivals|
      ensures arrivals[i].Tick() <= arrivals[h].Tick()
    {
      assert i < |past| ==> past[i] == arrivals[i];
    }
  }

  /** The highest tick that ever arrived is the tick at the end: the latest state is never lost. */
  lemma {:induction false} LatestIsNeverLost<T>(arrivals: seq<Link<T>>) returns (j: nat)
    requires arrivals != []
    ensures j < |arrivals| && Highest(arrivals, j) && arrivals[j].Tick() == Last(ChainOf(arrivals)).Tick()
    decreases |arrivals|
  {
    j := 0;
    if |arrivals| > 1 {
      var past := Before(arrivals);
      j := LatestIsNeverLost(past);
      ChainAscending(past);
      LastAfterArrival(ChainOf(past), Last(arrivals));
      j := HighestSoFar(arrivals, j);
    }
  }

  lemma AppendsBeyondLast<T>(c: seq<Link<T>>, n: Link<T>)
    requires c != [] && Ascending(c) && Last(c).Tick() < n.Tick()
    ensures Arrive(c, n) == c + [n.(linked := true)]
  {
    PositionSplits(c, n.Tick());
    ArriveShape(c, n);
  }

  /** Arrivals in strictly ascending order are all kept, in order, each linked to its predecessor. */
  lemma {:induction false} InOrderArrivals<T>(arrivals: seq<Link<T>>)
    requires Ascending(arrivals)
    ensures |ChainOf(arrivals)| == |arrivals|
    ensures forall i :: 0 <= i < |arrivals| ==> ChainOf(arrivals)[i] == arrivals[i].(linked := i > 0)
    decreases |arrivals|
  {
    if |arrivals| > 1 {
      var past := Before(arrivals);
      var c := ChainOf(past);
      InOrderArrivals(past);
      ChainAscending(past);
      InOrderStep(c, arrivals);
      AppendsBeyondLast(c, Last(arrivals));
    }
  }

  lemma InOrderStep<T>(c: seq<Link<T>>, arrivals: seq<Link<T>>)
    requires Ascending(arrivals) && |arrivals| > 1 && |c| == |arrivals| - 1
    requires forall i :: 0 <= i < |c| ==> c[i] == arrivals[i].(linked := i > 0)
    ensures Last(c).Tick() < Last(arrivals).Tick()
    ensures var d := c + [Last(arrivals).(linked := true)];
            forall i :: 0 <= i < |arrivals| ==> d[i] == arrivals[i].(linked := i > 0)
  {
    assert Last(c) == arrivals[|c| - 1].(linked := |c| - 1 > 0);
  }

  /** isOrdered is never set by an arrival, except by the wrap-around of the largest tick to the smallest. */
  lemma AdoptionOrdersOnlyByWrapAround(first: VectorTimeStamp, n: VectorTimeStamp)
    requires first.IsEarlierTick(n)
    ensures first.IsNextTick(n) <==> first.id == 0x7fff_ffff && n.id == -0x8000_0000
  {
  }

  /** Ticks 0, 10, 5, 3 in this order: 5 is put before 10, and 3 is dropped because 5 has no parent link. */
  lemma OutOfOrderArrivalIsLost(ticks: seq<int32>)
    requires ticks == [0, 10, 5, 3]
    ensures var arrivals := seq(4, i requires 0 <= i < 4 => Link(i, VectorTimeStamp(ticks[i], []), false, false));
            Items(ChainOf(arrivals)) == [0, 2, 1]
  {
    var l := seq(4, i requires 0 <= i < 4 => Link(i, VectorTimeStamp(ticks[i], []), false, false));
    var c2, c3 := [l[0], l[1].(linked := true)], [l[0], l[2], l[1].(linked := true)];
    assert Before(Before(Before(l))) == [l[0]];
    assert Before(Before(l)) == [l[0], l[1]] && Before(l) == [l[0], l[1], l[2]];
    assert ChainOf(Before(Before(l))) == Arrive([l[0]], l[1]) == c2;
    assert ChainOf(Before(l)) == Arrive(c2, l[2]);
    assert c2[1..] == [c2[1]] && Arrive(c2[1..], l[2]) == [l[2], c2[1]];
    assert Arrive(c2, l[2]) == c3;
    assert ChainOf(l) == Arrive(c3, l[3]);
    assert c3[1..] == [c3[1], c3[2]] && Arrive(c3[1..], l[3]) == c3[1..];
    assert Arrive(c3, l[3]) == c3;
  }
}
