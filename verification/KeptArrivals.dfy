/**
 Which states of an operator are kept, in ticks and order of arrival alone: the
 record highs, and what comes right below an unordered record high.
 */
module KeptArrivals {
  import opened Basics
  import opened VectorTimeStamps
  import opened Chain

  /** Higher than everything before it, and not the first. */
  ghost predicate RecordHigh<T>(a: seq<Link<T>>, k: nat)
    requires k < |a|
  {
    k > 0 && forall i :: 0 <= i < k ==> a[i].Tick() < a[k].Tick()
  }

  /** Arrival `j` lies below the unordered record high `k` and above everything else below `k` that came before it. */
  ghost predicate RightBelow<T>(a: seq<Link<T>>, j: nat, k: nat)
    requires j < |a|
  {
    && k < j && RecordHigh(a, k) && !a[k].ordered && a[j].Tick() < a[k].Tick()
    && forall i :: 0 <= i < j && a[i].Tick() < a[k].Tick() ==> a[i].Tick() < a[j].Tick()
  }

  ghost predicate Kept<T>(a: seq<Link<T>>, j: nat)
    requires j < |a|
  {
    j == 0 || RecordHigh(a, j) || exists k :: RightBelow(a, j, k)
  }

  // ---------- What the chain knows of the ticks so far ----------

  ghost predicate Seen<T>(a: seq<Link<T>>, n: nat, t: int32)
    requires n <= |a|
  {
    exists i :: 0 <= i < n && a[i].Tick() == t
  }

  /** `x` is at least every tick so far that is below `t`. */
  ghost predicate Below<T>(a: seq<Link<T>>, n: nat, t: int32, x: int32)
    requires n <= |a|
  {
    forall i :: 0 <= i < n && a[i].Tick() < t ==> a[i].Tick() <= x
  }

  /** Link `p` is the record high `k`, and if it is not ordered, right behind the highest tick below. */
  ghost predicate AtPlace<T>(a: seq<Link<T>>, n: nat, c: seq<Link<T>>, k: nat, p: nat)
    requires k < n <= |a|
  {
    && 0 < p < |c| && c[p].linked && c[p].Tick() == a[k].Tick() && c[p].ordered == a[k].ordered
    && (!a[k].ordered ==> Below(a, n, a[k].Tick(), c[p - 1].Tick()))
  }

  ghost predicate FromRecord<T>(a: seq<Link<T>>, n: nat, l: Link<T>)
    requires n <= |a|
  {
    exists k :: 0 <= k < n && RecordHigh(a, k) && a[k].Tick() == l.Tick() && a[k].ordered == l.ordered
  }

  ghost predicate Placed<T>(a: seq<Link<T>>, n: nat, c: seq<Link<T>>, k: nat)
    requires k < n <= |a|
  {
    exists p: nat :: AtPlace(a, n, c, k, p)
  }

  ghost predicate AllSeen<T>(a: seq<Link<T>>, n: nat, c: seq<Link<T>>)
    requires n <= |a|
  {
    forall p :: 0 <= p < |c| ==> Seen(a, n, c[p].Tick()) && (c[p].linked ==> FromRecord(a, n, c[p]))
  }

  ghost predicate AllPlaced<T>(a: seq<Link<T>>, n: nat, c: seq<Link<T>>)
    requires n <= |a|
  {
    forall k {:trigger Placed(a, n, c, k)} :: 0 < k < n && RecordHigh(a, k) ==> Placed(a, n, c, k)
  }

  ghost predicate UpTo<T>(a: seq<Link<T>>, n: nat, t: int32)
    requires n <= |a|
  {
    forall i :: 0 <= i < n ==> a[i].Tick() <= t
  }

  /** The chain after `n` arrivals: all its ticks were seen, and its linked nodes are the record highs. */
  ghost predicate Tops<T>(a: seq<Link<T>>, n: nat, c: seq<Link<T>>)
    requires n <= |a|
  {
    Ascending(c) && HeadUnlinked(c) && AllSeen(a, n, c) && AllPlaced(a, n, c) && UpTo(a, n, Last(c).Tick())
  }

  // ---------- One arrival, link by link ----------

  /** The chain `d` after arrival `n` at position `p`; on linked nodes it is exact. */
  ghost predicate Exact<T>(d: seq<Link<T>>, c: seq<Link<T>>, n: Link<T>, p: nat) {
    && p <= |c|
    && (p == |c| ==> d == c + [n.(linked := true)])
    && (p < |c| && Refused(c[p], n) ==>
          && |d| == |c|
          && (forall i :: 0 <= i < |c| && (c[i].linked || i != p) ==> d[i] == c[i])
          && SameLink(d[p], c[p]))
    && (p < |c| && !Refused(c[p], n) ==>
          && |d| == |c| + 1
          && d[p] == n.(linked := false)
          && (forall i :: 0 <= i < p ==> d[i] == c[i])
          && (forall i :: p < i <= |c| ==> d[i] == c[i - 1]))
  }

  lemma AdoptedExact<T>(c: seq<Link<T>>, n: Link<T>, p: nat)
    requires 0 < p < |c| && c[p - 1].Tick() < n.Tick() < c[p].Tick() && c[p].linked && !c[p].ordered
    ensures Exact(c[..p] + Adopt(c[p..], n), c, n, p)
  {
    AdoptShape(c, n, p);
    AdoptionOrdersOnlyByWrapAround(c[p].stamp, n.stamp);
    assert c[p].(ordered := false) == c[p];
  }

  lemma RefusedExact<T>(c: seq<Link<T>>, n: Link<T>, p: nat)
    requires p < |c| && n.Tick() < c[p].Tick() && !c[p].linked
    ensures Exact(c[..p] + Adopt(c[p..], n), c, n, p)
  {
    var d := c[..p] + Adopt(c[p..], n);
    AdoptShape(c, n, p);
    assert Refused(c[p], n) && SameLink(d[p], c[p]);
    forall i | 0 <= i < |c| && i != p
      ensures d[i] == c[i]
    {
    }
  }

  lemma ArriveExact<T>(c: seq<Link<T>>, n: Link<T>)
    requires c != [] && Ascending(c) && HeadUnlinked(c)
    ensures Exact(Arrive(c, n), c, n, Position(c, n.Tick()))
  {
    var p := Position(c, n.Tick());
    ArriveAtPosition(c, n);
    PositionSplits(c, n.Tick());
    if p < |c| && c[p].Tick() != n.Tick() && !c[p].ordered {
      if c[p].linked {
        AdoptedExact(c, n, p);
      } else {
        RefusedExact(c, n, p);
      }
    }
  }

  lemma Later<T>(a: seq<Link<T>>, n: nat, t: int32, l: Link<T>)
    requires n < |a|
    ensures Seen(a, n, t) ==> Seen(a, n + 1, t)
    ensures FromRecord(a, n, l) ==> FromRecord(a, n + 1, l)
  {
  }

  lemma SeenStep<T>(a: seq<Link<T>>, n: nat, c: seq<Link<T>>, d: seq<Link<T>>, p: nat, i: nat)
    requires n < |a| && Tops(a, n, c) && Exact(d, c, a[n], p) && i < |d|
    requires p == |c| ==> n > 0
    ensures Seen(a, n + 1, d[i].Tick())
    ensures d[i].linked ==> FromRecord(a, n + 1, d[i]) || (p == |c| && i == p)
  {
    var inserted := p < |c| && !Refused(c[p], a[n]);
    if i == p && (p == |c| || inserted) {
      assert a[n].Tick() == d[i].Tick();
    } else {
      var j := if inserted && i > p then i - 1 else i;
      assert SameLink(d[i], c[j]) && (c[j].linked ==> d[i] == c[j]);
      Later(a, n, c[j].Tick(), c[j]);
    }
  }

  /** Where record high `k` is after an arrival that was put at `p`. */
  lemma PlacedAfterInsertion<T>(a: seq<Link<T>>, n: nat, c: seq<Link<T>>, d: seq<Link<T>>, p: nat, k: nat, q: nat) returns (r: nat)
    requires k < n < |a| && Tops(a, n, c) && p == Position(c, a[n].Tick()) && Exact(d, c, a[n], p)
    requires AtPlace(a, n, c, k, q) && p < |c| && !Refused(c[p], a[n])
    ensures AtPlace(a, n + 1, d, k, r)
  {
    PositionSplits(c, a[n].Tick());
    r := if q < p then q else q + 1;
    assert d[r] == c[q];
    if q > p {
      assert d[r - 1] == c[q - 1] && a[n].Tick() < c[p].Tick() <= c[q - 1].Tick();
    } else if q == p {
      assert d[r - 1].Tick() == a[n].Tick() && c[p - 1].Tick() < a[n].Tick();
    } else {
      assert d[r - 1] == c[q - 1] && c[q].Tick() < a[n].Tick();
    }
  }

  /** ... or after one that was appended or dropped. */
  lemma PlacedAsBefore<T>(a: seq<Link<T>>, n: nat, c: seq<Link<T>>, d: seq<Link<T>>, p: nat, k: nat, q: nat)
    requires k < n < |a| && Tops(a, n, c) && p == Position(c, a[n].Tick()) && Exact(d, c, a[n], p)
    requires AtPlace(a, n, c, k, q) && (p < |c| ==> Refused(c[p], a[n]))
    ensures AtPlace(a, n + 1, d, k, q)
  {
    PositionSplits(c, a[n].Tick());
    assert d[q] == c[q] && d[q - 1].Tick() == c[q - 1].Tick();
    if p < q {
      assert a[n].Tick() <= c[p].Tick() <= c[q - 1].Tick();
    } else if p > q {
      assert c[q].Tick() < a[n].Tick();
    }
  }

  lemma PlacedStep<T>(a: seq<Link<T>>, n: nat, c: seq<Link<T>>, d: seq<Link<T>>, p: nat, k: nat)
    requires 0 < k < n < |a| && Tops(a, n, c) && RecordHigh(a, k)
    requires p == Position(c, a[n].Tick()) && Exact(d, c, a[n], p)
    ensures Placed(a, n + 1, d, k)
  {
    assert Placed(a, n, c, k);
    var q: nat :| AtPlace(a, n, c, k, q);
    if p < |c| && !Refused(c[p], a[n]) {
      var r := PlacedAfterInsertion(a, n, c, d, p, k, q);
    } else {
      PlacedAsBefore(a, n, c, d, p, k, q);
    }
  }

  /** A new record high goes to the end. */
  lemma NewRecordAtEnd<T>(a: seq<Link<T>>, n: nat, c: seq<Link<T>>)
    requires 0 < n < |a| && Tops(a, n, c)
    ensures RecordHigh(a, n) <==> Last(c).Tick() < a[n].Tick()
    ensures RecordHigh(a, n) <==> Position(c, a[n].Tick()) == |c|
  {
    PositionSplits(c, a[n].Tick());
    assert Seen(a, n, c[|c| - 1].Tick());
  }

  lemma LinksStep<T>(a: seq<Link<T>>, n: nat, c: seq<Link<T>>)
    requires 0 < n < |a| && Tops(a, n, c)
    ensures AllSeen(a, n + 1, Arrive(c, a[n]))
  {
    var d, p := Arrive(c, a[n]), Position(c, a[n].Tick());
    ArriveExact(c, a[n]);
    NewRecordAtEnd(a, n, c);
    forall i | 0 <= i < |d|
      ensures Seen(a, n + 1, d[i].Tick()) && (d[i].linked ==> FromRecord(a, n + 1, d[i]))
    {
      SeenStep(a, n, c, d, p, i);
    }
  }

  lemma RecordsStep<T>(a: seq<Link<T>>, n: nat, c: seq<Link<T>>)
    requires 0 < n < |a| && Tops(a, n, c)
    ensures AllPlaced(a, n + 1, Arrive(c, a[n]))
  {
    var d, p := Arrive(c, a[n]), Position(c, a[n].Tick());
    ArriveExact(c, a[n]);
    NewRecordAtEnd(a, n, c);
    forall k | 0 < k < n + 1 && RecordHigh(a, k)
      ensures Placed(a, n + 1, d, k)
    {
      if k < n {
        PlacedStep(a, n, c, d, p, k);
      } else {
        assert AtPlace(a, n + 1, d, n, |c|);
      }
    }
  }

  lemma HighStep<T>(a: seq<Link<T>>, n: nat, c: seq<Link<T>>)
    requires 0 < n < |a| && c != [] && Ascending(c) && UpTo(a, n, Last(c).Tick())
    ensures Arrive(c, a[n]) != [] && UpTo(a, n + 1, Last(Arrive(c, a[n])).Tick())
  {
    LastAfterArrival(c, a[n]);
  }

  lemma TopsStep<T>(a: seq<Link<T>>, n: nat, c: seq<Link<T>>)
    requires 0 < n < |a| && Tops(a, n, c)
    ensures Tops(a, n + 1, Arrive(c, a[n]))
  {
    ArriveAscending(c, a[n]);
    LinksStep(a, n, c);
    RecordsStep(a, n, c);
    HighStep(a, n, c);
  }

  lemma {:induction false} ChainTops<T>(a: seq<Link<T>>, n: nat)
    requires 0 < n <= |a|
    ensures Tops(a, n, ChainOf(a[..n]))
  {
    if n == 1 {
      assert a[..1][0] == a[0];
    } else {
      ChainTops(a, n - 1);
      assert Before(a[..n]) == a[..n - 1] && Last(a[..n]) == a[n - 1];
      TopsStep(a, n - 1, ChainOf(a[..n - 1]));
    }
  }

  // ---------- The closed form ----------

  lemma TakenIsKept<T>(a: seq<Link<T>>, j: nat, c: seq<Link<T>>, p: nat)
    requires 0 < j < |a| && Tops(a, j, c) && p == Position(c, a[j].Tick()) < |c| && !Refused(c[p], a[j])
    ensures exists k :: RightBelow(a, j, k)
  {
    PositionSplits(c, a[j].Tick());
    assert FromRecord(a, j, c[p]);
    var k :| 0 <= k < j && RecordHigh(a, k) && a[k].Tick() == c[p].Tick() && a[k].ordered == c[p].ordered;
    assert Placed(a, j, c, k);
    var q: nat :| AtPlace(a, j, c, k, q);
    assert q == p;
    assert RightBelow(a, j, k);
  }

  lemma KeptIsTaken<T>(a: seq<Link<T>>, j: nat, c: seq<Link<T>>, k: nat)
    requires 0 < j < |a| && Tops(a, j, c) && RightBelow(a, j, k)
    ensures var p := Position(c, a[j].Tick()); p < |c| && !Refused(c[p], a[j])
  {
    PositionSplits(c, a[j].Tick());
    assert Placed(a, j, c, k);
    var q: nat :| AtPlace(a, j, c, k, q);
    assert Seen(a, j, c[q - 1].Tick());
    assert c[q - 1].Tick() < a[j].Tick() < c[q].Tick();
    assert Position(c, a[j].Tick()) == q;
  }

  /** An arrival finds a place if and only if it is the first, a record high, or right below an unordered record high. */
  lemma TakenIffKept<T>(a: seq<Link<T>>, j: nat)
    requires j < |a|
    ensures Taken(a, j) <==> Kept(a, j)
  {
    if j > 0 {
      var c := ChainOf(a[..j]);
      var p := Position(c, a[j].Tick());
      ChainTops(a, j);
      NewRecordAtEnd(a, j, c);
      PositionSplits(c, a[j].Tick());
      if p < |c| && !Refused(c[p], a[j]) {
        TakenIsKept(a, j, c, p);
      }
      if k :| RightBelow(a, j, k) {
        KeptIsTaken(a, j, c, k);
      }
    }
  }

  /** The chain in closed form. */
  lemma ChainHoldsTheKept<T>(a: seq<Link<T>>, x: T)
    requires a != []
    ensures x in Items(ChainOf(a)) <==> exists j :: 0 <= j < |a| && a[j].item == x && Kept(a, j)
  {
    ChainHoldsTheTaken(a, x);
    forall j | 0 <= j < |a|
      ensures Taken(a, j) <==> Kept(a, j)
    {
      TakenIffKept(a, j);
    }
  }
}
