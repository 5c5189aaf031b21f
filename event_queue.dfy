/**
 * The pending-event queue shared by both schedulers. The source keeps its
 * pending items in a `std::collections::BinaryHeap`, a max-heap whose sift
 * steps compare elements with the element type's own order. This module models
 * the heap by its contents only (a sequence whose order carries no meaning)
 * and models `pop` as removing an element that is greatest under that order.
 * Heap layout and the choice among equal elements are not modelled.
 */
module EventQueue {

  /** `std::cmp::Ordering`. */
  datatype Ordering = Less | Equal | Greater {
    /** `Ordering::reverse`. */
    function Reverse(): (r: Ordering)
      ensures r == Equal <==> this == Equal
      ensures r == Less <==> this == Greater
    {
      match this
      case Less => Greater
      case Equal => Equal
      case Greater => Less
    }
  }

  /** `partial_cmp` / `cmp` on the clock values (never undefined on reals). */
  function Compare(a: real, b: real): (o: Ordering)
    ensures o == Less <==> a < b
    ensures o == Equal <==> a == b
    ensures o == Greater <==> b < a
  {
    if a < b then Less else if a == b then Equal else Greater
  }

  /** `cmp` is a total preorder on the elements of `q`: antisymmetric and transitive. */
  ghost predicate TotalOn<T>(q: seq<T>, cmp: (T, T) -> Ordering) {
    && (forall j, k :: 0 <= j < |q| && 0 <= k < |q| ==> cmp(q[j], q[k]) == cmp(q[k], q[j]).Reverse())
    && (forall j, k, l ::
          0 <= j < |q| && 0 <= k < |q| && 0 <= l < |q| && cmp(q[j], q[k]) != Greater && cmp(q[k], q[l]) != Greater
          ==> cmp(q[j], q[l]) != Greater)
  }

  /** `q[i]` is an element the max-heap may pop: nothing in `q` is greater. */
  ghost predicate IsGreatestAt<T>(q: seq<T>, cmp: (T, T) -> Ordering, i: int) {
    0 <= i < |q| && forall j :: 0 <= j < |q| ==> cmp(q[j], q[i]) != Greater
  }

  /**
   * Finds the position of the element `BinaryHeap::pop` returns: one that is
   * greatest under `cmp` (the first such position in `q`).
   */
  method PeekIndex<T>(q: seq<T>, cmp: (T, T) -> Ordering) returns (i: nat)
    requires |q| > 0
    requires TotalOn(q, cmp)
    ensures IsGreatestAt(q, cmp, i)
    ensures forall j :: 0 <= j < i ==> cmp(q[j], q[i]) == Less
  {
    i := 0;
    var j := 1;
    while j < |q|
      invariant 1 <= j <= |q|
      invariant i < j
      invariant forall k :: 0 <= k < j ==> cmp(q[k], q[i]) != Greater
      invariant forall k :: 0 <= k < i ==> cmp(q[k], q[i]) == Less
    {
      if cmp(q[j], q[i]) == Greater {
        i := j;
      }
      j := j + 1;
    }
  }

  /** The queue after the element at position `i` has been popped. */
  function RemoveAt<T>(q: seq<T>, i: nat): (r: seq<T>)
    requires i < |q|
    ensures |r| == |q| - 1
    ensures forall k :: 0 <= k < i ==> r[k] == q[k]
    ensures forall k :: i <= k < |r| ==> r[k] == q[k + 1]
  {
    q[..i] + q[i + 1..]
  }

  /** Popping removes exactly one occurrence of the popped element. */
  lemma RemoveAtMultiset<T>(q: seq<T>, i: nat)
    requires i < |q|
    ensures multiset(RemoveAt(q, i)) == multiset(q) - multiset{q[i]}
  {
    assert q == q[..i] + [q[i]] + q[i + 1..];
  }

  /** Popping the element at `i` and pushing `x` swaps one copy of `q[i]` for one of `x`. */
  lemma RemoveAtThenPush<T>(q: seq<T>, i: nat, x: T)
    requires i < |q|
    ensures multiset(RemoveAt(q, i) + [x]) == multiset(q) - multiset{q[i]} + multiset{x}
  {
    RemoveAtMultiset(q, i);
    assert multiset(RemoveAt(q, i) + [x]) == multiset(RemoveAt(q, i)) + multiset{x};
  }
}
