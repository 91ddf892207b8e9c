/**
 * The looping cursor shared by the library's C-facing lists (SmartList in
 * ed247_internals.h and both client_list_container headers): the cursor
 * rests on `end`, the first step goes to `begin`, each further step moves
 * on by one, and a step from the last element lands on `end` again, where
 * the current element is null.
 */
module Cursors {

  /** A C pointer into a list: null, or the element it designates. */
  datatype Pointer<T> = Null | Ptr(target: T)

  /** One step over `n` elements, `n` standing for `end`. */
  function NextIndex(i: nat, n: nat): (j: nat)
    requires i <= n
    ensures j <= n
  {
    if i == n then 0 else i + 1
  }

  /** Where `k` steps lead from `end`. */
  function Walk(k: nat, n: nat): (i: nat)
    ensures i <= n
  {
    if k == 0 then n else NextIndex(Walk(k - 1, n), n)
  }

  /** The element under the cursor, null at `end`. */
  function At<T>(items: seq<T>, i: nat): (p: Pointer<T>)
    requires i <= |items|
    ensures p.Null? <==> i == |items|
    ensures i < |items| ==> p == Ptr(items[i])
  {
    if i == |items| then Null else Ptr(items[i])
  }

  /** The first `n + 1` steps visit the elements in order, then `end`. */
  lemma {:induction false} WalkInOrder(k: nat, n: nat)
    requires 1 <= k <= n + 1
    ensures Walk(k, n) == k - 1
  {
    if k > 1 {
      WalkInOrder(k - 1, n);
    }
  }

  /** The cursor goes round: `n + 1` more steps bring it back where it was. */
  lemma {:induction false} WalkPeriodic(k: nat, n: nat)
    ensures Walk(k + n + 1, n) == Walk(k, n)
  {
    if k == 0 {
      WalkInOrder(n + 1, n);
    } else {
      WalkPeriodic(k - 1, n);
    }
  }

  /**
   * What a caller sees: the first step gives the first element (null for
   * an empty list), the `k`-th the `k`-th element, the step after the
   * last element gives null, and the next one the first element again.
   */
  lemma Loops<T>(items: seq<T>)
    ensures At(items, Walk(1, |items|)) == if items == [] then Null else Ptr(items[0])
    ensures forall k | 1 <= k <= |items| :: At(items, Walk(k, |items|)) == Ptr(items[k - 1])
    ensures At(items, Walk(|items| + 1, |items|)) == Null
    ensures Walk(|items| + 2, |items|) == Walk(1, |items|)
  {
    var n := |items|;
    WalkInOrder(1, n);
    WalkInOrder(n + 1, n);
    WalkPeriodic(1, n);
    forall k | 1 <= k <= n ensures At(items, Walk(k, n)) == Ptr(items[k - 1]) {
      WalkInOrder(k, n);
    }
  }
}
