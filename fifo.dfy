/**
 * The bounded first-in first-out discipline shared by the sample stores of
 * the library: a push onto a full queue drops the oldest entry.
 */
module Fifo {

  /** The last `m` elements of `s` (all of `s` when it is shorter). */
  function KeepLast<T>(s: seq<T>, m: nat): (r: seq<T>)
    ensures |r| == if |s| <= m then |s| else m
    ensures r == s[|s| - |r|..]
  {
    if |s| <= m then s else s[|s| - m..]
  }

  /** Appends `x` to a queue bounded by `m` entries, dropping the oldest entries that no longer fit. */
  function BoundedPush<T>(q: seq<T>, x: T, m: nat): (r: seq<T>)
    requires |q| <= m
    ensures |r| == if |q| < m then |q| + 1 else m
    ensures |q| < m ==> r == q + [x]
    ensures |q| == m && m > 0 ==> r == q[1..] + [x]
  {
    KeepLast(q + [x], m)
  }

  /** Pushes every element of `xs`, in order, onto `q`. */
  function PushAll<T>(q: seq<T>, xs: seq<T>, m: nat): (r: seq<T>)
    requires |q| <= m
    ensures |r| <= m
    decreases |xs|
  {
    if xs == [] then q else PushAll(BoundedPush(q, xs[0], m), xs[1..], m)
  }

  /** Pushing `xs` onto `q` keeps the newest `m` elements of `q + xs`, oldest first. */
  lemma {:induction false} PushAllKeepsNewest<T>(q: seq<T>, xs: seq<T>, m: nat)
    requires |q| <= m
    ensures PushAll(q, xs, m) == KeepLast(q + xs, m)
    decreases |xs|
  {
    if xs != [] {
      var x, rest := xs[0], xs[1..];
      var q' := BoundedPush(q, x, m);
      assert q' == KeepLast(q + [x], m);
      assert PushAll(q, xs, m) == PushAll(q', rest, m);
      PushAllKeepsNewest(q', rest, m);
      KeepLastOfAppend(q + [x], rest, m);
      AppendFirst(q, xs);
    }
  }

  /** Pushing one more element after `xs` is a bounded push onto the result. */
  lemma PushAllSnoc<T>(q: seq<T>, xs: seq<T>, x: T, m: nat)
    requires |q| <= m
    ensures |PushAll(q, xs, m)| <= m
    ensures PushAll(q, xs + [x], m) == BoundedPush(PushAll(q, xs, m), x, m)
  {
    PushAllKeepsNewest(q, xs + [x], m);
    PushAllKeepsNewest(q, xs, m);
    KeepLastOfAppend(q + xs, [x], m);
    assert q + (xs + [x]) == (q + xs) + [x];
  }

  /** Appending `xs` is appending its first element, then the rest. */
  lemma AppendFirst<T>(q: seq<T>, xs: seq<T>)
    requires xs != []
    ensures q + xs == (q + [xs[0]]) + xs[1..]
  {
  }

  lemma KeepLastOfAppend<T>(s: seq<T>, t: seq<T>, m: nat)
    ensures KeepLast(KeepLast(s, m) + t, m) == KeepLast(s + t, m)
  {
    var a := KeepLast(s, m);
    var lhs := KeepLast(a + t, m);
    var rhs := KeepLast(s + t, m);
    assert |lhs| == |rhs|;
    forall i | 0 <= i < |lhs|
      ensures lhs[i] == rhs[i]
    {
      var j := |a + t| - |lhs| + i;
      var k := |s + t| - |rhs| + i;
      if j < |a| {
        assert lhs[i] == a[j] == s[|s| - |a| + j];
        assert k == |s| - |a| + j;
      } else {
        assert lhs[i] == t[j - |a|];
        assert k - |s| == j - |a|;
      }
    }
  }
}
