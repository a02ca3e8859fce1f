/**
 Vector time stamps: the tick tests on the operator index and the comparison of
 the vectors.
 */
module VectorTimeStamps {
  import opened Basics

  datatype VectorTimeStamp = VectorTimeStamp(id: int32, vt: seq<int32>) {
    predicate IsEarlierTick(other: VectorTimeStamp) { other.id < id }

    predicate IsLaterTick(other: VectorTimeStamp) { other.id > id }

    /** id + 1 wraps around in Java. */
    predicate IsNextTick(other: VectorTimeStamp) {
      other.id == if id == 0x7fff_ffff then -0x8000_0000 else id + 1
    }
  }

  /** Ticks are compared as they are, but counted modulo 2^32. */
  lemma TicksSay(a: VectorTimeStamp, b: VectorTimeStamp)
    ensures a.IsEarlierTick(b) <==> b.id < a.id
    ensures a.IsLaterTick(b) <==> b.id > a.id
    ensures a.IsNextTick(b) <==> (b.id - a.id - 1) % 0x1_0000_0000 == 0
  {
  }

  /** Every component of `a` is at most that of `b`. */
  ghost predicate Leq(a: seq<int32>, b: seq<int32>)
    requires |a| == |b|
  {
    forall i :: 0 <= i < |a| ==> a[i] <= b[i]
  }

  /** Neither vector is below the other; vectors of different lengths do not count as concurrent. */
  ghost predicate Concurrent(a: seq<int32>, b: seq<int32>) {
    |a| == |b| && !Leq(a, b) && !Leq(b, a)
  }

  lemma ConcurrentSymmetric(a: seq<int32>, b: seq<int32>)
    ensures Concurrent(a, b) == Concurrent(b, a)
    ensures !Concurrent(a, a)
  {
  }

  /** isConcurrent with its early exit: exactly pointwise incomparability. */
  method IsConcurrent(a: seq<int32>, b: seq<int32>) returns (r: bool)
    ensures r == Concurrent(a, b)
    ensures r <==> |a| == |b| && (exists i :: 0 <= i < |a| && a[i] < b[i]) && (exists i :: 0 <= i < |a| && a[i] > b[i])
  {
    var greater, less := false, false;
    if |b| != |a| {
      return false;
    }
    for i := 0 to |a|
      invariant greater == exists k :: 0 <= k < i && b[k] > a[k]
      invariant less == exists k :: 0 <= k < i && b[k] < a[k]
      invariant !(greater && less)
    {
      if b[i] > a[i] {
        greater := true;
      } else if b[i] < a[i] {
        less := true;
      }
      if greater && less {
        return true;
      }
    }
    r := greater && less;
  }

  datatype Verdict = Answer(b: bool) | IndexOutOfBounds

  /** isCausallyBefore as written: the loop guard compares i with the size for equality. */
  method IsCausallyBefore(a: seq<int32>, b: seq<int32>) returns (r: Verdict)
    ensures r == if a == [] && b == [] then IndexOutOfBounds else Answer(false)
  {
    if |b| != |a| {
      return Answer(false);
    }
    var isNotSame := false;
    var i := 0;
    if i == |a| {
      return IndexOutOfBounds;  // the loop body starts by reading element i, one past the end
    }
    return Answer(isNotSame);
  }
}
