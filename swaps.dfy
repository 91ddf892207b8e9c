/**
 * Byte-order swaps applied to signal data: `bswap_16/32/64` on one
 * element, `swap_nad` of ed247_stream.cpp (in place, a given number of
 * elements of a NAD type) and `swap_copy` of ed247_stream_assistant.cpp
 * (swapping while copying into another buffer).
 */
module Swaps {
  import opened Types
  import opened XmlRules

  /** `bswap_16/32/64`: the bytes of one element in reverse order. */
  function Reverse(s: seq<Byte>): (r: seq<Byte>)
    ensures |r| == |s|
    ensures forall i | 0 <= i < |s| :: r[i] == s[|s| - 1 - i]
  {
    if s == [] then [] else Reverse(s[1..]) + [s[0]]
  }

  lemma ReverseInvolution(s: seq<Byte>)
    ensures Reverse(Reverse(s)) == s
  {
    var r := Reverse(Reverse(s));
    forall i | 0 <= i < |s|
      ensures r[i] == s[i]
    {
      assert r[i] == Reverse(s)[|s| - 1 - i];
    }
  }

  /**
   * Every whole `k`-byte element of `s` byte-reversed, front to back; a
   * trailing partial element is left as it is.
   */
  function SwapAll(s: seq<Byte>, k: nat): (r: seq<Byte>)
    requires k > 0
    ensures |r| == |s|
    decreases |s|
  {
    if |s| < k then s else Reverse(s[..k]) + SwapAll(s[k..], k)
  }

  /** Swapping every element twice gives the bytes back. */
  lemma {:induction false} SwapAllInvolution(s: seq<Byte>, k: nat)
    requires k > 0
    ensures SwapAll(SwapAll(s, k), k) == s
    decreases |s|
  {
    if |s| >= k {
      var a, b := Reverse(s[..k]), SwapAll(s[k..], k);
      var r := SwapAll(s, k);
      assert r == a + b;
      Splice(a, b, []);
      assert r[..k] == a && r[k..] == b by {
        assert a + b + [] == a + b;
      }
      assert SwapAll(r, k) == Reverse(a) + SwapAll(b, k);
      SwapAllInvolution(s[k..], k);
      ReverseInvolution(s[..k]);
      assert s == s[..k] + s[k..];
    }
  }

  /** Swapping single bytes changes nothing. */
  lemma {:induction false} SwapAllOfBytes(s: seq<Byte>)
    ensures SwapAll(s, 1) == s
    decreases |s|
  {
    if |s| >= 1 {
      SwapAllOfBytes(s[1..]);
      assert Reverse(s[..1]) == s[..1];
      assert s == s[..1] + s[1..];
    }
  }

  /** `n` is a whole number of `k`-byte elements. */
  predicate WholeElements(n: nat, k: nat)
    requires k > 0
    decreases n
  {
    n == 0 || (n >= k && WholeElements(n - k, k))
  }

  /** The element size `swap_nad` swaps for a NAD type; 1 and 0 mean "left as is". */
  function SwapWidth(nadType: int): (k: nat)
    ensures k in {0, 1, 2, 4, 8}
    ensures k == NadTypeSize(nadType)
  {
    NadTypeSize(nadType)
  }

  /**
   * The bytes `swap_nad(data, type, count)` leaves in a region of `len`
   * bytes: the first `len / width` elements swapped for the 2-, 4- and
   * 8-byte types, nothing changed for the 1-byte and invalid types.
   */
  function SwapNadRegion(s: seq<Byte>, nadType: int): (r: seq<Byte>)
    ensures |r| == |s|
  {
    var k := SwapWidth(nadType);
    if k >= 2 then SwapAll(s, k) else s
  }

  lemma SwapNadRegionInvolution(s: seq<Byte>, nadType: int)
    ensures SwapNadRegion(SwapNadRegion(s, nadType), nadType) == s
  {
    var k := SwapWidth(nadType);
    if k >= 2 {
      SwapAllInvolution(s, k);
    }
  }

  /**
   * `swap_nad`: swaps `count` elements of `nadType` in place, starting at
   * `off`. The 1-byte and invalid types leave the data as it is.
   */
  method SwapNadInPlace(data: array<Byte>, off: nat, nadType: int, count: nat)
    requires off + RegionLength(count, nadType) <= data.Length
    modifies data
    ensures var len := RegionLength(count, nadType);
      data[..] == old(data[..off]) + SwapNadRegion(old(data[off..off + len]), nadType) + old(data[off + len..])
  {
    var k := SwapWidth(nadType);
    var len := RegionLength(count, nadType);
    ghost var orig := data[..];
    if k < 2 {
      assert data[..] == orig[..off] + orig[off..off + len] + orig[off + len..];
      return;
    }
    RegionIsWhole(count, nadType);
    SwapElementsInPlace(data, off, off + len, k);
  }

  /** The element loop of `swap_nad`: reverses each `k`-byte element of `data[off..end]` in place. */
  method SwapElementsInPlace(data: array<Byte>, off: nat, end: nat, k: nat)
    requires k > 0 && off <= end <= data.Length && WholeElements(end - off, k)
    modifies data
    ensures data[..] == old(data[..off]) + SwapAll(old(data[off..end]), k) + old(data[end..])
  {
    ghost var orig := data[..];
    var pos := off;
    assert SwappedUpTo(orig, data[..], off, off, k);
    while pos < end
      invariant off <= pos <= end && data.Length == |orig|
      invariant WholeElements(end - pos, k) && SwappedUpTo(orig, data[..], off, pos, k)
      decreases end - pos
    {
      WholeElementsDown(end - pos, k);
      ReverseElement(data, orig, off, pos, k);
      assert end - (pos + k) == end - pos - k;
      pos := pos + k;
    }
    SwappedAll(orig, data[..], off, end, k);
  }

  /** One step of the element loop: reverses the element at `pos` in place. */
  method ReverseElement(data: array<Byte>, ghost orig: seq<Byte>, off: nat, pos: nat, k: nat)
    requires k > 0 && SwappedUpTo(orig, data[..], off, pos, k) && pos + k <= data.Length
    modifies data
    ensures SwappedUpTo(orig, data[..], off, pos + k, k)
  {
    var element := Reverse(data[pos..pos + k]);
    ghost var before := data[..];
    WriteRange(data, pos, element);
    SwappedStep(orig, before, data[..], off, pos, k);
  }

  lemma SwappedAll(orig: seq<Byte>, cur: seq<Byte>, off: nat, end: nat, k: nat)
    requires k > 0 && SwappedUpTo(orig, cur, off, end, k)
    ensures cur == orig[..off] + SwapAll(orig[off..end], k) + orig[end..]
  {
    assert cur == cur[..off] + cur[off..end] + cur[end..];
  }

  /** `cur` is `orig` with the whole elements of `orig[off..pos]` swapped and nothing else changed. */
  ghost predicate SwappedUpTo(orig: seq<Byte>, cur: seq<Byte>, off: nat, pos: nat, k: nat)
    requires k > 0
  {
    off <= pos <= |orig| == |cur| && WholeElements(pos - off, k)
    && cur[..off] == orig[..off] && cur[pos..] == orig[pos..]
    && cur[off..pos] == SwapAll(orig[off..pos], k)
  }

  /** Reversing the element at `pos` extends the swapped run by one element. */
  lemma SwappedStep(orig: seq<Byte>, before: seq<Byte>, after: seq<Byte>, off: nat, pos: nat, k: nat)
    requires k > 0 && SwappedUpTo(orig, before, off, pos, k) && pos + k <= |before|
    requires after == before[..pos] + Reverse(before[pos..pos + k]) + before[pos + k..]
    ensures SwappedUpTo(orig, after, off, pos + k, k)
  {
    var e := before[pos..pos + k];
    SuffixParts(before, orig, pos, k);
    SliceConcat(orig, off, pos, pos + k);
    SwapAllAppend(orig[off..pos], e, k);
    WholeElementsStep(pos - off, k);
    assert pos + k - off == pos - off + k;
    Splice(before[..pos], Reverse(e), before[pos + k..]);
    PrefixOfPrefix(after, off, pos);
    PrefixOfPrefix(before, off, pos);
    SliceConcat(after, off, pos, pos + k);
  }

  /** Two sequences that agree from `pos` on agree on the element there and on what follows it. */
  lemma SuffixParts<T>(s: seq<T>, t: seq<T>, pos: nat, k: nat)
    requires pos + k <= |s| && pos <= |t| && s[pos..] == t[pos..]
    ensures s[pos..pos + k] == t[pos..pos + k] && s[pos + k..] == t[pos + k..]
  {
    assert s[pos..pos + k] == s[pos..][..k];
    assert t[pos..pos + k] == t[pos..][..k];
    assert s[pos + k..] == s[pos..][k..];
    assert t[pos + k..] == t[pos..][k..];
  }

  /** A slice of `s` split at `j`. */
  lemma SliceConcat<T>(s: seq<T>, i: nat, j: nat, k: nat)
    requires i <= j <= k <= |s|
    ensures s[i..k] == s[i..j] + s[j..k]
  {
  }

  /** The parts of a prefix of `s`. */
  lemma PrefixOfPrefix<T>(s: seq<T>, i: nat, j: nat)
    requires i <= j <= |s|
    ensures s[..j][..i] == s[..i] && s[..j][i..] == s[i..j]
  {
  }

  /** A slice of the part `h` of `s` that starts at `i` is the slice of `s` there. */
  lemma SliceWithin<T>(s: seq<T>, i: nat, h: seq<T>, j: nat, k: nat)
    requires i + |h| <= |s| && s[i..i + |h|] == h && j <= k <= |h|
    ensures s[i + j..i + k] == h[j..k]
  {
    forall n | 0 <= n < k - j
      ensures s[i + j..i + k][n] == h[j..k][n]
    {
      assert s[i + j + n] == s[i..i + |h|][j + n];
    }
  }

  /** The three parts of a concatenation of three sequences. */
  lemma Splice<T>(a: seq<T>, b: seq<T>, c: seq<T>)
    ensures (a + b + c)[..|a|] == a && (a + b + c)[|a|..|a| + |b|] == b && (a + b + c)[|a| + |b|..] == c
  {
  }

  /** The number of bytes `count` elements of `nadType` take. */
  function RegionLength(count: nat, nadType: int): (n: nat)
  {
    count * SwapWidth(nadType)
  }

  lemma RegionIsWhole(count: nat, nadType: int)
    requires SwapWidth(nadType) > 0
    ensures WholeElements(RegionLength(count, nadType), SwapWidth(nadType))
  {
    WholeElementsOfProduct(count, SwapWidth(nadType));
  }

  lemma {:induction false} WholeElementsOfProduct(count: nat, k: nat)
    requires k > 0
    ensures WholeElements(count * k, k)
    decreases count
  {
    if count > 0 {
      WholeElementsOfProduct(count - 1, k);
      assert count * k - k == (count - 1) * k;
    }
  }

  /** Appending one whole element to a run of whole elements appends its reversal. */
  lemma {:induction false} SwapAllAppend(s: seq<Byte>, e: seq<Byte>, k: nat)
    requires k > 0 && |e| == k && WholeElementsOf(s, k)
    ensures SwapAll(s + e, k) == SwapAll(s, k) + Reverse(e)
    decreases |s|
  {
    if |s| == 0 {
      assert (s + e)[..k] == e && (s + e)[k..] == [];
    } else {
      assert (s + e)[..k] == s[..k];
      assert (s + e)[k..] == s[k..] + e;
      SwapAllAppend(s[k..], e, k);
    }
  }

  /** `s` is a whole number of `k`-byte elements. */
  predicate WholeElementsOf(s: seq<Byte>, k: nat)
    requires k > 0
  {
    WholeElements(|s|, k)
  }

  /**
   * `swap_copy`: copies `src` into `dest` at `at`, byte-reversing each
   * element of the NAD type. A 1-byte type is a plain copy; a type whose
   * size is not 1, 2, 4 or 8 fails as soon as there is a byte to copy.
   */
  method SwapCopy(src: seq<Byte>, dest: array<Byte>, at: nat, nadType: int) returns (ok: bool)
    requires at + |src| <= dest.Length
    requires NadTypeSize(nadType) > 0 ==> WholeElements(|src|, NadTypeSize(nadType))
    modifies dest
    ensures ok <==> NadTypeSize(nadType) > 0 || |src| == 0
    ensures ok ==> dest[..] == old(dest[..at]) + SwapNadRegion(src, nadType) + old(dest[at + |src|..])
    ensures ok && NadTypeSize(nadType) > 0 ==> dest[at..at + |src|] == SwapAll(src, NadTypeSize(nadType))
  {
    var k := NadTypeSize(nadType);
    ghost var orig := dest[..];
    if k == 1 {
      WriteRange(dest, at, src);
      SwapAllOfBytes(src);
      assert dest[..] == orig[..at] + src + orig[at + |src|..];
      return true;
    }
    if k == 0 {
      if |src| == 0 {
        assert dest[..] == orig[..at] + src + orig[at + |src|..];
      }
      return |src| == 0;
    }
    CopyElementsSwapped(src, dest, at, k);
    Splice(orig[..at], SwapAll(src, k), orig[at + |src|..]);
    return true;
  }

  /** The element loop of `swap_copy`: writes each `k`-byte element of `src` reversed into `dest` at `at`. */
  method CopyElementsSwapped(src: seq<Byte>, dest: array<Byte>, at: nat, k: nat)
    requires k > 0 && at + |src| <= dest.Length && WholeElements(|src|, k)
    modifies dest
    ensures dest[..] == old(dest[..at]) + SwapAll(src, k) + old(dest[at + |src|..])
  {
    ghost var orig := dest[..];
    var pos := 0;
    assert CopiedUpTo(orig, dest[..], src, at, 0, k);
    while pos < |src|
      invariant pos <= |src| && WholeElements(|src| - pos, k) && dest.Length == |orig|
      invariant CopiedUpTo(orig, dest[..], src, at, pos, k)
      decreases |src| - pos
    {
      WholeElementsDown(|src| - pos, k);
      CopyElement(src, dest, orig, at, pos, k);
      assert |src| - (pos + k) == |src| - pos - k;
      pos := pos + k;
    }
    CopiedAll(orig, dest[..], src, at, k);
  }

  /** One step of the element loop: writes the element of `src` at `pos` reversed. */
  method CopyElement(src: seq<Byte>, dest: array<Byte>, ghost orig: seq<Byte>, at: nat, pos: nat, k: nat)
    requires k > 0 && CopiedUpTo(orig, dest[..], src, at, pos, k) && pos + k <= |src|
    modifies dest
    ensures CopiedUpTo(orig, dest[..], src, at, pos + k, k)
  {
    var element := Reverse(src[pos..pos + k]);
    ghost var before := dest[..];
    WriteRange(dest, at + pos, element);
    CopiedStep(orig, before, dest[..], src, at, pos, k);
  }

  /** `cur` is `orig` with the whole elements of `src[..pos]` written swapped at `at` and nothing else changed. */
  ghost predicate CopiedUpTo(orig: seq<Byte>, cur: seq<Byte>, src: seq<Byte>, at: nat, pos: nat, k: nat)
    requires k > 0
  {
    pos <= |src| && at + |src| <= |orig| == |cur| && WholeElements(pos, k)
    && cur[..at] == orig[..at] && cur[at + pos..] == orig[at + pos..]
    && cur[at..at + pos] == SwapAll(src[..pos], k)
  }

  /** Writing the next element reversed extends the copied run by one element. */
  lemma CopiedStep(orig: seq<Byte>, before: seq<Byte>, after: seq<Byte>, src: seq<Byte>, at: nat, pos: nat, k: nat)
    requires k > 0 && CopiedUpTo(orig, before, src, at, pos, k) && pos + k <= |src|
    requires after == before[..at + pos] + Reverse(src[pos..pos + k]) + before[at + pos + k..]
    ensures CopiedUpTo(orig, after, src, at, pos + k, k)
  {
    var e := Reverse(src[pos..pos + k]);
    SwapPrefixStep(src, pos, k);
    SuffixParts(before, orig, at + pos, k);
    Splice(before[..at + pos], e, before[at + pos + k..]);
    PrefixOfPrefix(after, at, at + pos);
    PrefixOfPrefix(before, at, at + pos);
    SliceConcat(after, at, at + pos, at + pos + k);
  }

  lemma CopiedAll(orig: seq<Byte>, cur: seq<Byte>, src: seq<Byte>, at: nat, k: nat)
    requires k > 0 && CopiedUpTo(orig, cur, src, at, |src|, k)
    ensures cur == orig[..at] + SwapAll(src, k) + orig[at + |src|..]
  {
    assert src[..|src|] == src;
    assert cur == cur[..at] + cur[at..at + |src|] + cur[at + |src|..];
  }

  /** The slices of `whole == front + back` at the boundary and one element past it. */
  lemma PartsOfWritten(front: seq<Byte>, back: seq<Byte>, whole: seq<Byte>, k: nat)
    requires whole == front + back && k <= |back|
    ensures whole[..|front|] == front && whole[|front| + k..] == back[k..]
  {
  }

  /** Swapping one more whole element of a prefix. */
  lemma SwapPrefixStep(s: seq<Byte>, n: nat, k: nat)
    requires k > 0 && n + k <= |s| && WholeElements(n, k)
    ensures SwapAll(s[..n + k], k) == SwapAll(s[..n], k) + Reverse(s[n..n + k])
    ensures WholeElements(n + k, k)
  {
    SwapAllAppend(s[..n], s[n..n + k], k);
    assert s[..n + k] == s[..n] + s[n..n + k];
    WholeElementsStep(n, k);
  }

  /** `memcpy` of `bytes` into `a` at `at`. */
  method WriteRange(a: array<Byte>, at: nat, bytes: seq<Byte>)
    requires at + |bytes| <= a.Length
    modifies a
    ensures a[..] == old(a[..at]) + bytes + old(a[at + |bytes|..])
    ensures a[..at] == old(a[..at]) && a[at..at + |bytes|] == bytes
    ensures a[at + |bytes|..] == old(a[at + |bytes|..])
  {
    forall j | 0 <= j < |bytes| {
      a[at + j] := bytes[j];
    }
    assert a[..] == old(a[..at]) + bytes + old(a[at + |bytes|..]) by {
      forall j | 0 <= j < a.Length
        ensures a[j] == (old(a[..at]) + bytes + old(a[at + |bytes|..]))[j]
      {
      }
    }
  }

  /** Writing `bytes` just past the `written` part of a buffer extends that part. */
  lemma WriteAfter<T>(f0: seq<T>, at: nat, written: seq<T>, bytes: seq<T>, cur: seq<T>, next: seq<T>)
    requires at + |written| + |bytes| <= |f0|
    requires cur == f0[..at] + written + f0[at + |written|..]
    requires next == cur[..at + |written|] + bytes + cur[at + |written| + |bytes|..]
    ensures next == f0[..at] + (written + bytes) + f0[at + |written| + |bytes|..]
  {
    Splice(f0[..at], written, f0[at + |written|..]);
    assert cur[at + |written|..] == f0[at + |written|..];
    assert cur[at + |written| + |bytes|..] == cur[at + |written|..][|bytes|..];
    assert f0[at + |written|..][|bytes|..] == f0[at + |written| + |bytes|..];
  }

  lemma WholeElementsDown(n: nat, k: nat)
    requires k > 0 && WholeElements(n, k) && n > 0
    ensures n >= k && WholeElements(n - k, k)
  {
  }

  lemma {:induction false} WholeElementsStep(n: nat, k: nat)
    requires k > 0 && WholeElements(n, k)
    ensures WholeElements(n + k, k)
    decreases n
  {
    if n > 0 {
      WholeElementsStep(n - k, k);
    }
  }
}
