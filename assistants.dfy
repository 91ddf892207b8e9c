/**
 * The stream assistants of ed247_stream_assistant.cpp: the per-signal
 * view of a DISCRETE, ANALOG, NAD or VNAD stream. An application writes
 * signals into the assistant, pushes the assembled sample onto the
 * stream, and on the other side pops a sample and reads its signals.
 *
 * `FixedAssistant` keeps one buffer of the stream's sample size with each
 * signal at its byte offset; `VnadAssistant` keeps one sample per signal
 * and packs them as a 16-bit big-endian size followed by the bytes.
 * Signal data is byte-swapped on its way in and out (`swap_copy`).
 */
module Assistants {
  import opened Types
  import opened XmlRules
  import opened Swaps
  import opened Fifo
  import opened CircularBuffer
  import opened StreamWire
  import opened Streams

  /**
   * What an assistant call comes to: the value the source returns, a
   * throw (`swap_copy` on a NAD type of no known size), or an access to
   * bytes the model does not track (past the end of a sample or a
   * buffer), whose effect C++ leaves undefined.
   */
  datatype Call<T> = Returns(value: T) | Throws | OutOfBounds

  /** What `swap_copy` of some bytes produces in the destination. */
  datatype Copy = Copied(bytes: seq<Byte>) | Raised | Overruns

  /**
   * `swap_copy(src, dest, size, type)`: a plain copy for a 1-byte type,
   * each element byte-reversed for the 2-, 4- and 8-byte types. Any other
   * type raises as soon as there is a byte to copy, and a size that is
   * not a whole number of elements makes the last element run past it.
   */
  function SwapCopied(src: seq<Byte>, nadType: int): (c: Copy)
    ensures c.Copied? ==> |c.bytes| == |src|
  {
    var k := NadTypeSize(nadType);
    if k == 1 then Copied(src)
    else if src == [] then Copied([])
    else if k == 0 then Raised
    else if WholeElements(|src|, k) then Copied(SwapAll(src, k))
    else Overruns
  }

  /**
   * `swap_copy` raises exactly for a type of no known size and a
   * non-empty source, runs past the source exactly for a size that is not
   * a whole number of elements, and otherwise writes the bytes `swap_nad`
   * would leave in place.
   */
  lemma SwapCopiedMeans(src: seq<Byte>, nadType: int)
    ensures SwapCopied(src, nadType) == Raised <==> NadTypeSize(nadType) == 0 && src != []
    ensures SwapCopied(src, nadType) == Overruns <==> NadTypeSize(nadType) >= 2 && !WholeElements(|src|, NadTypeSize(nadType))
    ensures SwapCopied(src, nadType).Copied? ==> SwapCopied(src, nadType).bytes == SwapNadRegion(src, nadType)
  {
  }

  /** Copying the copy back gives the original bytes: what the sender swaps, the receiver swaps back. */
  lemma SwapCopiedTwice(src: seq<Byte>, nadType: int)
    requires SwapCopied(src, nadType).Copied?
    ensures SwapCopied(SwapCopied(src, nadType).bytes, nadType) == Copied(src)
  {
    var k := NadTypeSize(nadType);
    var b := SwapCopied(src, nadType).bytes;
    SwapCopiedMeans(src, nadType);
    SwapCopiedMeans(b, nadType);
    SwapNadRegionInvolution(src, nadType);
    if k >= 2 && src != [] {
      assert WholeElements(|b|, k);
    }
  }

  /**
   * The `swap_copy` of `src` into `dest` at `at`, when it copies: the
   * method does what the function says.
   */
  method CopyInto(src: seq<Byte>, dest: array<Byte>, at: nat, nadType: int)
    requires at + |src| <= dest.Length && SwapCopied(src, nadType).Copied?
    modifies dest
    ensures dest[..] == Placed(old(dest[..]), at, SwapCopied(src, nadType).bytes)
  {
    SwapCopiedMeans(src, nadType);
    if NadTypeSize(nadType) == 1 {
      RegionIsWhole(|src|, nadType);
    }
    var ok := SwapCopy(src, dest, at, nadType);
  }

  /** `buf` with `bytes` written at `off`. */
  function Placed(buf: seq<Byte>, off: nat, bytes: seq<Byte>): (r: seq<Byte>)
    requires off + |bytes| <= |buf|
    ensures |r| == |buf| && r[off..off + |bytes|] == bytes
    ensures forall j | 0 <= j < |buf| && (j < off || j >= off + |bytes|) :: r[j] == buf[j]
  {
    buf[..off] + bytes + buf[off + |bytes|..]
  }

  /** Every signal lies inside the first `n` bytes: the stream's sample size covers its signals. */
  predicate Fits(sigs: seq<SignalLayout>, n: nat)
  {
    forall i | 0 <= i < |sigs| :: sigs[i].byteOffset + sigs[i].maxSizeBytes <= n
  }

  /** The bytes of a signal in a fixed-layout sample. */
  function Slot(buf: seq<Byte>, sig: SignalLayout): seq<Byte>
    requires sig.byteOffset + sig.maxSizeBytes <= |buf|
  {
    buf[sig.byteOffset..sig.byteOffset + sig.maxSizeBytes]
  }

  /** Two signals share no byte. */
  predicate Apart(a: SignalLayout, b: SignalLayout)
  {
    a.byteOffset + a.maxSizeBytes <= b.byteOffset || b.byteOffset + b.maxSizeBytes <= a.byteOffset
  }

  /** No two signals share a byte. */
  predicate AllApart(sigs: seq<SignalLayout>)
  {
    forall i, j | 0 <= i < j < |sigs| :: Apart(sigs[i], sigs[j])
  }

  /**
   * The assistant buffer after a fixed-layout pop of payload `p`: each
   * signal, in order, swap-copied from its offset in `p` into the buffer
   * at the same offset, `maxSizeBytes` bytes each. Reading a signal past
   * the end of the payload reads bytes the model does not track.
   */
  function FixedUnpack(buf: seq<Byte>, p: seq<Byte>, sigs: seq<SignalLayout>): (r: Call<seq<Byte>>)
    requires Fits(sigs, |buf|)
    ensures r.Returns? ==> |r.value| == |buf|
    decreases |sigs|
  {
    if sigs == [] then Returns(buf)
    else
      var s := sigs[0];
      if s.byteOffset + s.maxSizeBytes > |p| then OutOfBounds
      else match SwapCopied(Slot(p, s), s.nadType)
        case Raised => Throws
        case Overruns => OutOfBounds
        case Copied(b) => FixedUnpack(Placed(buf, s.byteOffset, b), p, sigs[1..])
  }

  /**
   * The assistant buffer after the application wrote every signal at
   * full size, in order: `ds[i]` swap-copied at the offset of signal `i`.
   */
  function WriteAll(buf: seq<Byte>, sigs: seq<SignalLayout>, ds: seq<seq<Byte>>): (r: seq<Byte>)
    requires Fits(sigs, |buf|) && |ds| == |sigs|
    requires forall i | 0 <= i < |sigs| :: |ds[i]| == sigs[i].maxSizeBytes && SwapCopied(ds[i], sigs[i].nadType).Copied?
    ensures |r| == |buf|
    decreases |sigs|
  {
    if sigs == [] then buf
    else WriteAll(Placed(buf, sigs[0].byteOffset, SwapCopied(ds[0], sigs[0].nadType).bytes), sigs[1..], ds[1..])
  }

  /** A signal apart from every written signal keeps its bytes. */
  lemma {:induction false} WriteAllKeeps(buf: seq<Byte>, sigs: seq<SignalLayout>, ds: seq<seq<Byte>>, r: SignalLayout)
    requires Fits(sigs, |buf|) && |ds| == |sigs| && r.byteOffset + r.maxSizeBytes <= |buf|
    requires forall i | 0 <= i < |sigs| :: |ds[i]| == sigs[i].maxSizeBytes && SwapCopied(ds[i], sigs[i].nadType).Copied?
    requires forall i | 0 <= i < |sigs| :: Apart(sigs[i], r)
    ensures Slot(WriteAll(buf, sigs, ds), r) == Slot(buf, r)
    decreases |sigs|
  {
    if sigs != [] {
      var b := Placed(buf, sigs[0].byteOffset, SwapCopied(ds[0], sigs[0].nadType).bytes);
      assert Apart(sigs[0], r);
      assert Slot(b, r) == Slot(buf, r);
      WriteAllKeeps(b, sigs[1..], ds[1..], r);
    }
  }

  /** After the writes, each signal holds its data swap-copied. */
  lemma {:induction false} WriteAllHas(buf: seq<Byte>, sigs: seq<SignalLayout>, ds: seq<seq<Byte>>, i: nat)
    requires Fits(sigs, |buf|) && |ds| == |sigs| && AllApart(sigs) && i < |sigs|
    requires forall i | 0 <= i < |sigs| :: |ds[i]| == sigs[i].maxSizeBytes && SwapCopied(ds[i], sigs[i].nadType).Copied?
    ensures Slot(WriteAll(buf, sigs, ds), sigs[i]) == SwapCopied(ds[i], sigs[i].nadType).bytes
    decreases |sigs|
  {
    var b := Placed(buf, sigs[0].byteOffset, SwapCopied(ds[0], sigs[0].nadType).bytes);
    if i == 0 {
      WriteAllKeeps(b, sigs[1..], ds[1..], sigs[0]);
    } else {
      WriteAllHas(b, sigs[1..], ds[1..], i - 1);
    }
  }

  /** A fixed-layout pop leaves a signal apart from every popped signal as it was. */
  lemma {:induction false} UnpackKeeps(buf: seq<Byte>, p: seq<Byte>, sigs: seq<SignalLayout>, r: SignalLayout)
    requires Fits(sigs, |buf|) && FixedUnpack(buf, p, sigs).Returns? && r.byteOffset + r.maxSizeBytes <= |buf|
    requires forall i | 0 <= i < |sigs| :: Apart(sigs[i], r)
    ensures Slot(FixedUnpack(buf, p, sigs).value, r) == Slot(buf, r)
    decreases |sigs|
  {
    if sigs != [] {
      var b := Placed(buf, sigs[0].byteOffset, SwapCopied(Slot(p, sigs[0]), sigs[0].nadType).bytes);
      assert Apart(sigs[0], r);
      assert Slot(b, r) == Slot(buf, r);
      UnpackKeeps(b, p, sigs[1..], r);
    }
  }

  /** After a fixed-layout pop, each signal holds its bytes of the payload swap-copied. */
  lemma {:induction false} UnpackHas(buf: seq<Byte>, p: seq<Byte>, sigs: seq<SignalLayout>, i: nat)
    requires Fits(sigs, |buf|) && AllApart(sigs) && FixedUnpack(buf, p, sigs).Returns? && i < |sigs|
    ensures sigs[i].byteOffset + sigs[i].maxSizeBytes <= |p|
    ensures SwapCopied(Slot(p, sigs[i]), sigs[i].nadType).Copied?
    ensures Slot(FixedUnpack(buf, p, sigs).value, sigs[i]) == SwapCopied(Slot(p, sigs[i]), sigs[i].nadType).bytes
    decreases |sigs|
  {
    var b := Placed(buf, sigs[0].byteOffset, SwapCopied(Slot(p, sigs[0]), sigs[0].nadType).bytes);
    if i == 0 {
      UnpackKeeps(b, p, sigs[1..], sigs[0]);
    } else {
      UnpackHas(b, p, sigs[1..], i - 1);
    }
  }

  /** A fixed-layout pop succeeds when every signal lies in the payload and copies. */
  lemma {:induction false} UnpackSucceeds(buf: seq<Byte>, p: seq<Byte>, sigs: seq<SignalLayout>)
    requires Fits(sigs, |buf|) && Fits(sigs, |p|)
    requires forall i | 0 <= i < |sigs| :: SwapCopied(Slot(p, sigs[i]), sigs[i].nadType).Copied?
    ensures FixedUnpack(buf, p, sigs).Returns?
    decreases |sigs|
  {
    if sigs != [] {
      var b := Placed(buf, sigs[0].byteOffset, SwapCopied(Slot(p, sigs[0]), sigs[0].nadType).bytes);
      UnpackSucceeds(b, p, sigs[1..]);
    }
  }

  /**
   * The fixed-layout round trip: with signals that share no byte, writing
   * every signal at full size and popping the resulting sample (into any
   * buffer) reads back exactly the bytes written.
   */
  lemma FixedRoundTrip(buf: seq<Byte>, sigs: seq<SignalLayout>, ds: seq<seq<Byte>>, other: seq<Byte>)
    requires Fits(sigs, |buf|) && Fits(sigs, |other|) && AllApart(sigs) && |ds| == |sigs|
    requires forall i | 0 <= i < |sigs| :: |ds[i]| == sigs[i].maxSizeBytes && SwapCopied(ds[i], sigs[i].nadType).Copied?
    ensures FixedUnpack(other, WriteAll(buf, sigs, ds), sigs).Returns?
    ensures forall i | 0 <= i < |sigs| :: Slot(FixedUnpack(other, WriteAll(buf, sigs, ds), sigs).value, sigs[i]) == ds[i]
  {
    var p := WriteAll(buf, sigs, ds);
    forall i | 0 <= i < |sigs|
      ensures SwapCopied(Slot(p, sigs[i]), sigs[i].nadType) == Copied(ds[i])
    {
      WriteAllHas(buf, sigs, ds, i);
      SwapCopiedTwice(ds[i], sigs[i].nadType);
    }
    UnpackSucceeds(other, p, sigs);
    forall i | 0 <= i < |sigs|
      ensures Slot(FixedUnpack(other, p, sigs).value, sigs[i]) == ds[i]
    {
      UnpackHas(other, p, sigs, i);
    }
  }

  /** The size field at `i`: the two bytes read as a big-endian (`ntohs`) number. */
  function SizeAt(p: seq<Byte>, i: nat): (n: nat)
    requires i + 2 <= |p|
    ensures n < 0x1_0000
  {
    (p[i] as int) * 256 + p[i + 1] as int
  }

  /** The result of a VNAD pop: the samples decoded, in signal order, and whether every signal was. */
  datatype Entries = Entries(values: seq<seq<Byte>>, complete: bool)

  /**
   * The payload a VNAD push builds, in at most `room` bytes: for each
   * signal, its current size as a 16-bit big-endian number (truncated to
   * 16 bits) followed by its bytes swap-copied.
   */
  function VnadPack(samples: seq<seq<Byte>>, sigs: seq<SignalLayout>, room: nat): (r: Call<seq<Byte>>)
    requires |samples| == |sigs|
    ensures r.Returns? ==> |r.value| <= room
    decreases |sigs|
  {
    if sigs == [] then Returns([])
    else if room < 2 then OutOfBounds
    else match SwapCopied(samples[0], sigs[0].nadType)
      case Raised => Throws
      case Overruns => OutOfBounds
      case Copied(b) =>
        if |b| > room - 2 then OutOfBounds
        else match VnadPack(samples[1..], sigs[1..], room - 2 - |b|)
          case Returns(rest) => Returns(BE16(|samples[0]| % 0x1_0000) + b + rest)
          case Throws => Throws
          case OutOfBounds => OutOfBounds
  }

  /** `done` in front of the samples an unpacking decodes, when it decodes any. */
  function After(done: seq<seq<Byte>>, c: Call<Entries>): Call<Entries>
  {
    match c
    case Returns(e) => Returns(Entries(done + e.values, e.complete))
    case Throws => Throws
    case OutOfBounds => OutOfBounds
  }

  /**
   * What a VNAD pop of payload `p` decodes, from the k-th signal on,
   * reading at byte `index`: for each signal, a 16-bit big-endian size
   * then that many bytes, swap-copied. A size above the signal's maximum
   * stops the pop with the signals before it decoded.
   */
  function VnadUnpack(p: seq<Byte>, index: nat, sigs: seq<SignalLayout>, k: nat): (r: Call<Entries>)
    requires index <= |p| && k <= |sigs|
    decreases |sigs| - k
  {
    if k == |sigs| then Returns(Entries([], true))
    else if |p| - index < 2 then OutOfBounds
    else
      var n := SizeAt(p, index);
      if n > sigs[k].maxSizeBytes then Returns(Entries([], false))
      else if index + 2 + n > |p| then OutOfBounds
      else match SwapCopied(p[index + 2..index + 2 + n], sigs[k].nadType)
        case Raised => Throws
        case Overruns => OutOfBounds
        case Copied(b) => After([b], VnadUnpack(p, index + 2 + n, sigs, k + 1))
  }

  /** A turn of the VNAD pop that copies: the signal's bytes, then the rest of the walk. */
  lemma UnpackCopies(p: seq<Byte>, index: nat, sigs: seq<SignalLayout>, k: nat, n: nat, b: seq<Byte>)
    requires k < |sigs| && index + 2 <= |p| && n == SizeAt(p, index) && n <= sigs[k].maxSizeBytes && index + 2 + n <= |p|
    requires SwapCopied(p[index + 2..index + 2 + n], sigs[k].nadType) == Copied(b)
    ensures VnadUnpack(p, index, sigs, k) == After([b], VnadUnpack(p, index + 2 + n, sigs, k + 1))
  {
  }

  /**
   * The VNAD round trip: popping a packed payload gives every signal's
   * bytes back, when each sample fits its signal and its size fits the
   * 16-bit size field.
   */
  lemma VnadRoundTrip(ss: seq<seq<Byte>>, sigs: seq<SignalLayout>, room: nat)
    requires |ss| == |sigs| && VnadPack(ss, sigs, room).Returns?
    requires forall i | 0 <= i < |sigs| :: |ss[i]| <= sigs[i].maxSizeBytes && |ss[i]| < 0x1_0000
    ensures VnadUnpack(VnadPack(ss, sigs, room).value, 0, sigs, 0) == Returns(Entries(ss, true))
  {
    var p := VnadPack(ss, sigs, room).value;
    assert ss[0..] == ss && sigs[0..] == sigs && p[0..] == p;
    PackLays(ss, sigs, 0, room, p, 0);
    LaidUnpacks(p, 0, ss, sigs, 0);
  }

  /**
   * The samples from the k-th on lie in `p` from `index` on as a VNAD
   * push lays them out: each one's size, then its bytes swap-copied.
   */
  ghost predicate Laid(p: seq<Byte>, index: nat, ss: seq<seq<Byte>>, sigs: seq<SignalLayout>, k: nat)
    requires |ss| == |sigs| && k <= |sigs|
    decreases |sigs| - k
  {
    k == |sigs| ||
    (var n := |ss[k]|;
     index + 2 + n <= |p| && SizeAt(p, index) == n &&
     SwapCopied(p[index + 2..index + 2 + n], sigs[k].nadType) == Copied(ss[k]) &&
     Laid(p, index + 2 + n, ss, sigs, k + 1))
  }

  /** The payload of a VNAD push holds its samples in the VNAD layout. */
  lemma {:induction false} PackLays(ss: seq<seq<Byte>>, sigs: seq<SignalLayout>, k: nat, room: nat, p: seq<Byte>, index: nat)
    requires |ss| == |sigs| && k <= |sigs| && index <= |p|
    requires PackFrom(ss, sigs, k, room).Returns? && p[index..] == PackFrom(ss, sigs, k, room).value
    requires forall i | k <= i < |sigs| :: |ss[i]| < 0x1_0000
    ensures Laid(p, index, ss, sigs, k)
    decreases |sigs| - k
  {
    if k < |sigs| {
      var n := |ss[k]|;
      PackFromStep(ss, sigs, k, room);
      var b := SwapCopied(ss[k], sigs[k].nadType).bytes;
      var rest := PackFrom(ss, sigs, k + 1, room - 2 - n).value;
      assert p[index..] == BE16(n) + b + rest;
      Splice(BE16(n), b, rest);
      assert p[index..][..2] == p[index..index + 2];
      assert SizeAt(p, index) == n;
      assert p[index + 2..index + 2 + n] == b by {
        assert p[index..][2..2 + n] == p[index + 2..index + 2 + n];
      }
      assert p[index + 2 + n..] == rest by {
        assert p[index..][2 + n..] == p[index + 2 + n..];
      }
      SwapCopiedTwice(ss[k], sigs[k].nadType);
      PackLays(ss, sigs, k + 1, room - 2 - n, p, index + 2 + n);
    }
  }

  /** Popping samples laid out in the VNAD layout decodes all of them. */
  lemma {:induction false} LaidUnpacks(p: seq<Byte>, index: nat, ss: seq<seq<Byte>>, sigs: seq<SignalLayout>, k: nat)
    requires |ss| == |sigs| && k <= |sigs| && index <= |p|
    requires Laid(p, index, ss, sigs, k)
    requires forall i | k <= i < |sigs| :: |ss[i]| <= sigs[i].maxSizeBytes
    ensures VnadUnpack(p, index, sigs, k) == Returns(Entries(ss[k..], true))
    decreases |sigs| - k
  {
    if k == |sigs| {
      assert ss[k..] == [];
    } else {
      var n := |ss[k]|;
      UnpackCopies(p, index, sigs, k, n, ss[k]);
      LaidUnpacks(p, index + 2 + n, ss, sigs, k + 1);
      AfterOne(VnadUnpack(p, index + 2 + n, sigs, k + 1), ss[k], ss[k + 1..]);
      assert ss[k..] == [ss[k]] + ss[k + 1..];
    }
  }

  /** One decoded sample in front of a complete unpacking. */
  lemma AfterOne(c: Call<Entries>, b: seq<Byte>, rest: seq<seq<Byte>>)
    requires c == Returns(Entries(rest, true))
    ensures After([b], c) == Returns(Entries([b] + rest, true))
  {
  }

  /** What is left of a fixed-layout pop: the signals from the k-th on. */
  ghost function UnpackFrom(buf: seq<Byte>, p: seq<Byte>, sigs: seq<SignalLayout>, k: nat): Call<seq<Byte>>
    requires Fits(sigs, |buf|) && k <= |sigs|
  {
    assert Fits(sigs[k..], |buf|) by {
      assert forall i | 0 <= i < |sigs[k..]| :: sigs[k..][i] == sigs[k + i];
    }
    FixedUnpack(buf, p, sigs[k..])
  }

  /** One turn of the fixed-layout pop: the k-th signal, then the rest. */
  lemma UnpackFromStep(buf: seq<Byte>, p: seq<Byte>, sigs: seq<SignalLayout>, k: nat)
    requires Fits(sigs, |buf|) && k < |sigs|
    ensures var s := sigs[k];
      UnpackFrom(buf, p, sigs, k) ==
        if s.byteOffset + s.maxSizeBytes > |p| then OutOfBounds
        else match SwapCopied(Slot(p, s), s.nadType)
          case Raised => Throws
          case Overruns => OutOfBounds
          case Copied(b) => UnpackFrom(Placed(buf, s.byteOffset, b), p, sigs, k + 1)
  {
    assert sigs[k..][0] == sigs[k] && sigs[k..][1..] == sigs[k + 1..];
  }

  /** `prefix` in front of the bytes a packing produces, when it produces any. */
  function Prepend(prefix: seq<Byte>, c: Call<seq<Byte>>): Call<seq<Byte>>
  {
    match c
    case Returns(rest) => Returns(prefix + rest)
    case Throws => Throws
    case OutOfBounds => OutOfBounds
  }

  /** What is left of a VNAD push: the samples from the k-th on, in `room` bytes. */
  ghost function PackFrom(ss: seq<seq<Byte>>, sigs: seq<SignalLayout>, k: nat, room: nat): Call<seq<Byte>>
    requires |ss| == |sigs| && k <= |sigs|
  {
    VnadPack(ss[k..], sigs[k..], room)
  }

  /** One turn of the VNAD push: the k-th sample, then the rest. */
  lemma PackFromStep(ss: seq<seq<Byte>>, sigs: seq<SignalLayout>, k: nat, room: nat)
    requires |ss| == |sigs| && k < |sigs|
    ensures room < 2 ==> PackFrom(ss, sigs, k, room) == OutOfBounds
    ensures room >= 2 && SwapCopied(ss[k], sigs[k].nadType).Raised? ==> PackFrom(ss, sigs, k, room) == Throws
    ensures room >= 2 && SwapCopied(ss[k], sigs[k].nadType).Overruns? ==> PackFrom(ss, sigs, k, room) == OutOfBounds
    ensures room >= 2 && SwapCopied(ss[k], sigs[k].nadType).Copied? && |ss[k]| > room - 2 ==>
      PackFrom(ss, sigs, k, room) == OutOfBounds
    ensures room >= 2 && SwapCopied(ss[k], sigs[k].nadType).Copied? && |ss[k]| <= room - 2 ==>
      PackFrom(ss, sigs, k, room) ==
        Prepend(BE16(|ss[k]| % 0x1_0000) + SwapCopied(ss[k], sigs[k].nadType).bytes, PackFrom(ss, sigs, k + 1, room - 2 - |ss[k]|))
  {
    assert ss[k..][0] == ss[k] && ss[k..][1..] == ss[k + 1..];
    assert sigs[k..][0] == sigs[k] && sigs[k..][1..] == sigs[k + 1..];
  }

  /** Bytes in front of bytes in front of a packing. */
  lemma PrependTurn(pre: seq<Byte>, bytes: seq<Byte>, c: Call<seq<Byte>>)
    ensures Prepend(pre, Prepend(bytes, c)) == Prepend(pre + bytes, c)
  {
    if c.Returns? {
      assert pre + (bytes + c.value) == pre + bytes + c.value;
    }
  }

  /** Decoded samples in front of decoded samples in front of an unpacking. */
  lemma AfterTurn(done: seq<seq<Byte>>, b: seq<Byte>, c: Call<Entries>)
    ensures After(done, After([b], c)) == After(done + [b], c)
  {
    if c.Returns? {
      assert done + ([b] + c.value.values) == done + [b] + c.value.values;
    }
  }

  /**
   * `FixedStreamAssistant`: one buffer of the stream's sample size, each
   * signal at its byte offset. `buffer` is the data of the assistant's
   * sample, whose size the constructor sets to the stream's sample size.
   */
  class FixedAssistant {
    const stream: Stream
    const buffer: array<Byte>

    /** The stream is valid, the buffer has its sample size, and every signal lies inside it. */
    ghost predicate Valid()
      reads stream.sendStack, stream.recvStack
    {
      stream.Valid() && buffer.Length == stream.cfg.maxSizeBytes && Fits(stream.cfg.signals, buffer.Length)
    }

    /** The assistant of stream `s`: a zero-filled buffer of the stream's sample size. */
    constructor(s: Stream)
      requires s.Valid() && Fits(s.cfg.signals, s.cfg.maxSizeBytes)
      ensures Valid() && stream == s && fresh(buffer)
      ensures buffer[..] == seq(s.cfg.maxSizeBytes, _ => 0)
    {
      stream := s;
      buffer := new Byte[s.cfg.maxSizeBytes](_ => 0);
    }

    /**
     * `write`: refused for data longer than the signal's maximum size;
     * otherwise the data is swap-copied into the buffer at the signal's
     * offset.
     */
    method Write(i: nat, data: seq<Byte>) returns (r: Call<bool>)
      requires Valid() && i < |stream.cfg.signals|
      modifies buffer
      ensures var sig := stream.cfg.signals[i];
        if |data| > sig.maxSizeBytes then r == Returns(false) && buffer[..] == old(buffer[..])
        else match SwapCopied(data, sig.nadType)
          case Copied(b) => r == Returns(true) && buffer[..] == Placed(old(buffer[..]), sig.byteOffset, b)
          case Raised => r == Throws && buffer[..] == old(buffer[..])
          case Overruns => r == OutOfBounds
    {
      var sig := stream.cfg.signals[i];
      if |data| > sig.maxSizeBytes {
        return Returns(false);
      }
      var c := SwapCopied(data, sig.nadType);
      if c.Raised? {
        return Throws;
      }
      if c.Overruns? {
        return OutOfBounds;
      }
      CopyInto(data, buffer, sig.byteOffset, sig.nadType);
      r := Returns(true);
    }

    /** `read`: the signal's bytes in the buffer, at its offset and of its maximum size. */
    function Read(i: nat): (r: seq<Byte>)
      reads buffer
      requires i < |stream.cfg.signals| && Fits(stream.cfg.signals, buffer.Length)
      ensures |r| == stream.cfg.signals[i].maxSizeBytes
    {
      Slot(buffer[..], stream.cfg.signals[i])
    }

    /** `push`: refused on a stream without OUT; otherwise the whole buffer is pushed onto the stream. */
    method Push(stamp: Option<Timestamp>) returns (ok: bool, full: bool)
      requires Valid()
      modifies stream.sendStack
      ensures Valid()
      ensures ok <==> HasOut(stream.cfg.direction)
      ensures !ok ==> stream.sendStack.Queue() == old(stream.sendStack.Queue())
      ensures ok ==> (stream.sendStack.Queue() ==
        BoundedPush(old(stream.sendStack.Queue()), Pushed(old(stream.sendStack.NextWrite()), buffer[..], stamp), stream.cfg.maxNumber))
      ensures ok ==> (full <==> |stream.sendStack.Queue()| == stream.cfg.maxNumber)
    {
      if !HasOut(stream.cfg.direction) {
        return false, false;
      }
      ok, full := stream.PushSample(buffer[..], stamp);
    }

    /**
     * `pop`: FAILURE on a stream without IN, NODATA when nothing was
     * received; otherwise the oldest received sample is popped and every
     * signal swap-copied from it into the buffer.
     */
    method Pop() returns (r: Call<Status>, popped: Option<SampleValue>, empty: bool)
      requires Valid()
      modifies stream.recvStack, buffer
      ensures Valid()
      ensures !HasIn(stream.cfg.direction) ==>
        r == Returns(Failure) && popped.None? && stream.recvStack.Queue() == old(stream.recvStack.Queue()) && buffer[..] == old(buffer[..])
      ensures HasIn(stream.cfg.direction) && old(stream.recvStack.Queue()) == [] ==>
        r == Returns(NoData) && popped.None? && stream.recvStack.Queue() == [] && buffer[..] == old(buffer[..])
      ensures HasIn(stream.cfg.direction) && old(stream.recvStack.Queue()) != [] ==>
        popped == Some(old(stream.recvStack.Queue())[0]) &&
        stream.recvStack.Queue() == old(stream.recvStack.Queue())[1..] && (empty <==> stream.recvStack.Queue() == []) &&
        match FixedUnpack(old(buffer[..]), popped.value.payload, stream.cfg.signals)
        case Returns(b) => r == Returns(Success) && buffer[..] == b
        case Throws => r == Throws
        case OutOfBounds => r == OutOfBounds
    {
      if !HasIn(stream.cfg.direction) {
        return Returns(Failure), None, false;
      }
      if stream.recvStack.size == 0 {
        return Returns(NoData), None, false;
      }
      popped, empty := stream.PopSample();
      r := UnpackInto(popped.value.payload);
    }

    /** The signal loop of `pop`: each signal swap-copied from payload `p` into the buffer. */
    method UnpackInto(p: seq<Byte>) returns (r: Call<Status>)
      requires Fits(stream.cfg.signals, buffer.Length)
      modifies buffer
      ensures match FixedUnpack(old(buffer[..]), p, stream.cfg.signals)
        case Returns(b) => r == Returns(Success) && buffer[..] == b
        case Throws => r == Throws
        case OutOfBounds => r == OutOfBounds
    {
      var sigs := stream.cfg.signals;
      ghost var spec := FixedUnpack(buffer[..], p, sigs);
      assert sigs[0..] == sigs;
      var k := 0;
      while k < |sigs|
        invariant k <= |sigs| && Fits(sigs, buffer.Length)
        invariant UnpackFrom(buffer[..], p, sigs, k) == spec
      {
        var s := sigs[k];
        if s.byteOffset + s.maxSizeBytes > |p| {
          UnpackFromStep(buffer[..], p, sigs, k);
          return OutOfBounds;
        }
        var c := SwapCopied(Slot(p, s), s.nadType);
        UnpackFromStep(buffer[..], p, sigs, k);
        if c.Raised? {
          return Throws;
        }
        if c.Overruns? {
          return OutOfBounds;
        }
        CopyInto(Slot(p, s), buffer, s.byteOffset, s.nadType);
        k := k + 1;
      }
      r := Returns(Success);
    }
  }

  /**
   * `VNADStreamAssistant`: one sample per signal, packed on push and
   * unpacked on pop. `samples[i]` is the sample of the i-th signal of the
   * stream; `buffer` is the data of the assistant's packing buffer, of the
   * stream's sample size.
   */
  class VnadAssistant {
    const stream: Stream
    const buffer: array<Byte>
    var samples: seq<seq<Byte>>

    /** One sample per signal, none above its signal's maximum size. */
    ghost predicate Valid()
      reads this, stream.sendStack, stream.recvStack
    {
      stream.Valid() && buffer.Length == stream.cfg.maxSizeBytes && |samples| == |stream.cfg.signals| &&
      forall i | 0 <= i < |samples| :: |samples[i]| <= stream.cfg.signals[i].maxSizeBytes
    }

    /** The assistant of stream `s`: an empty sample per signal. */
    constructor(s: Stream)
      requires s.Valid()
      ensures Valid() && stream == s && fresh(buffer)
      ensures samples == seq(|s.cfg.signals|, _ => [])
    {
      stream := s;
      buffer := new Byte[s.cfg.maxSizeBytes](_ => 0);
      samples := seq(|s.cfg.signals|, _ => []);
    }

    /** `write`: the copy into the signal's sample, refused when the data exceeds its capacity. */
    method Write(i: nat, data: seq<Byte>) returns (ok: bool)
      requires Valid() && i < |stream.cfg.signals|
      modifies this`samples
      ensures Valid()
      ensures ok <==> |data| <= stream.cfg.signals[i].maxSizeBytes
      ensures ok ==> samples == old(samples)[i := data]
      ensures !ok ==> samples == old(samples)
    {
      if |data| > stream.cfg.signals[i].maxSizeBytes {
        return false;
      }
      samples := samples[i := data];
      ok := true;
    }

    /** `read`: the signal's sample as it stands. */
    function Read(i: nat): (r: seq<Byte>)
      reads this, stream.sendStack, stream.recvStack
      requires Valid() && i < |stream.cfg.signals|
      ensures |r| <= stream.cfg.signals[i].maxSizeBytes
    {
      samples[i]
    }

    /**
     * `push`: refused on a stream without OUT; otherwise every sample is
     * packed into the buffer (and reset), and the packed bytes are pushed
     * onto the stream.
     */
    method Push(stamp: Option<Timestamp>) returns (r: Call<bool>, full: bool)
      requires Valid()
      modifies this`samples, buffer, stream.sendStack
      ensures Valid()
      ensures !HasOut(stream.cfg.direction) ==>
        r == Returns(false) && samples == old(samples) && stream.sendStack.Queue() == old(stream.sendStack.Queue())
      ensures HasOut(stream.cfg.direction) ==>
        match VnadPack(old(samples), stream.cfg.signals, buffer.Length)
        case Returns(bytes) =>
          r == Returns(true) && samples == seq(|stream.cfg.signals|, _ => []) &&
          stream.sendStack.Queue() ==
            BoundedPush(old(stream.sendStack.Queue()), Pushed(old(stream.sendStack.NextWrite()), bytes, stamp), stream.cfg.maxNumber) &&
          (full <==> |stream.sendStack.Queue()| == stream.cfg.maxNumber)
        case Throws => r == Throws && stream.sendStack.Queue() == old(stream.sendStack.Queue())
        case OutOfBounds => r == OutOfBounds && stream.sendStack.Queue() == old(stream.sendStack.Queue())
    {
      if !HasOut(stream.cfg.direction) {
        return Returns(false), false;
      }
      var packed := PackAll();
      if !packed.Returns? {
        return if packed.Throws? then Throws else OutOfBounds, false;
      }
      var ok;
      ok, full := stream.PushSample(buffer[..packed.value], stamp);
      r := Returns(true);
    }

    /** The signal loop of `push`: each sample's size and swapped bytes, one after the other. */
    method PackAll() returns (r: Call<nat>)
      requires Valid()
      modifies this`samples, buffer
      ensures Valid()
      ensures match VnadPack(old(samples), stream.cfg.signals, buffer.Length)
        case Returns(bytes) => r == Returns(|bytes|) && buffer[..|bytes|] == bytes && samples == seq(|stream.cfg.signals|, _ => [])
        case Throws => r == Throws
        case OutOfBounds => r == OutOfBounds
    {
      var sigs := stream.cfg.signals;
      ghost var ss := samples;
      ghost var spec := VnadPack(ss, sigs, buffer.Length);
      var index: nat := 0;
      var k := 0;
      assert ss[0..] == ss && sigs[0..] == sigs;
      assert spec == Prepend(buffer[..0], spec) by {
        if spec.Returns? {
          assert buffer[..0] + spec.value == spec.value;
        }
      }
      while k < |sigs|
        invariant k <= |sigs| && index <= buffer.Length && Valid() && |ss| == |sigs|
        invariant samples == seq(k, _ => []) + ss[k..]
        invariant spec == Prepend(buffer[..index], PackFrom(ss, sigs, k, buffer.Length - index))
      {
        var t := PackTurn(k, index, ss, spec);
        if !t.Returns? {
          return if t.Throws? then Throws else OutOfBounds;
        }
        index := t.value;
        k := k + 1;
      }
      assert samples == seq(|sigs|, _ => []);
      assert PackFrom(ss, sigs, k, buffer.Length - index) == Returns([]) by {
        assert ss[k..] == [] && sigs[k..] == [];
      }
      assert buffer[..index] + [] == buffer[..index];
      r := Returns(index);
    }

    /** One turn of the `push` loop, on the k-th sample: the new index, or how the packing stops. */
    method PackTurn(k: nat, index: nat, ghost ss: seq<seq<Byte>>, ghost spec: Call<seq<Byte>>) returns (r: Call<nat>)
      requires Valid() && k < |stream.cfg.signals| && |ss| == |stream.cfg.signals| && index <= buffer.Length
      requires samples == seq(k, _ => []) + ss[k..]
      requires spec == Prepend(buffer[..index], PackFrom(ss, stream.cfg.signals, k, buffer.Length - index))
      modifies this`samples, buffer
      ensures Valid()
      ensures r.Returns? ==> index < r.value <= buffer.Length && samples == seq(k + 1, _ => []) + ss[k + 1..]
      ensures r.Returns? ==> spec == Prepend(buffer[..r.value], PackFrom(ss, stream.cfg.signals, k + 1, buffer.Length - r.value))
      ensures r.Throws? ==> spec == Throws
      ensures r.OutOfBounds? ==> spec == OutOfBounds
    {
      var sigs := stream.cfg.signals;
      var s := samples[k];
      var sig := sigs[k];
      assert s == ss[k];
      PackFromStep(ss, sigs, k, buffer.Length - index);
      if buffer.Length - index < 2 {
        return OutOfBounds;
      }
      var c := SwapCopied(s, sig.nadType);
      if c.Raised? {
        return Throws;
      }
      if c.Overruns? || |s| > buffer.Length - index - 2 {
        return OutOfBounds;
      }
      ghost var pre := buffer[..index];
      PackOne(index, s, sig.nadType);
      PrependTurn(pre, BE16(|s| % 0x1_0000) + c.bytes, PackFrom(ss, sigs, k + 1, buffer.Length - index - 2 - |s|));
      samples := samples[k := []];
      assert samples == seq(k + 1, _ => []) + ss[k + 1..];
      r := Returns(index + 2 + |s|);
    }

    /** The writes of one turn of the `push` loop: the size of `s` at `index`, then its bytes swap-copied. */
    method PackOne(index: nat, s: seq<Byte>, nadType: int)
      requires index + 2 + |s| <= buffer.Length && SwapCopied(s, nadType).Copied?
      modifies buffer
      ensures buffer[..index + 2 + |s|] == old(buffer[..index]) + (BE16(|s| % 0x1_0000) + SwapCopied(s, nadType).bytes)
    {
      var size := BE16(|s| % 0x1_0000);
      WriteRange(buffer, index, size);
      ghost var mid := buffer[..];
      CopyInto(s, buffer, index + 2, nadType);
      var b := SwapCopied(s, nadType).bytes;
      assert buffer[..index + 2] == mid[..index + 2] == old(buffer[..index]) + size;
      assert buffer[..index + 2 + |s|] == buffer[..index + 2] + buffer[index + 2..index + 2 + |s|];
      assert old(buffer[..index]) + size + b == old(buffer[..index]) + (size + b);
    }

    /**
     * `pop`: FAILURE on a stream without IN, NODATA when nothing was
     * received; otherwise the oldest received sample is popped and its
     * signals unpacked into their samples, FAILURE at a size above the
     * signal's maximum.
     */
    method Pop() returns (r: Call<Status>, popped: Option<SampleValue>, empty: bool)
      requires Valid()
      modifies this`samples, stream.recvStack
      ensures Valid()
      ensures !HasIn(stream.cfg.direction) ==>
        r == Returns(Failure) && popped.None? && stream.recvStack.Queue() == old(stream.recvStack.Queue()) && samples == old(samples)
      ensures HasIn(stream.cfg.direction) && old(stream.recvStack.Queue()) == [] ==>
        r == Returns(NoData) && popped.None? && stream.recvStack.Queue() == [] && samples == old(samples)
      ensures HasIn(stream.cfg.direction) && old(stream.recvStack.Queue()) != [] ==>
        popped == Some(old(stream.recvStack.Queue())[0]) &&
        stream.recvStack.Queue() == old(stream.recvStack.Queue())[1..] && (empty <==> stream.recvStack.Queue() == []) &&
        match VnadUnpack(popped.value.payload, 0, stream.cfg.signals, 0)
        case Returns(e) =>
          |e.values| <= |old(samples)| && r == Returns(if e.complete then Success else Failure) &&
          samples == e.values + old(samples)[|e.values|..]
        case Throws => r == Throws
        case OutOfBounds => r == OutOfBounds
    {
      if !HasIn(stream.cfg.direction) {
        return Returns(Failure), None, false;
      }
      if stream.recvStack.size == 0 {
        return Returns(NoData), None, false;
      }
      popped, empty := stream.PopSample();
      r := UnpackAll(popped.value.payload);
    }

    /** One turn of the `pop` loop, on the k-th signal: how the pop stops, or the new index and samples. */
    method UnpackTurn(p: seq<Byte>, k: nat, index: nat, ghost ss: seq<seq<Byte>>, ghost spec: Call<Entries>, ghost done: seq<seq<Byte>>)
      returns (stop: Option<Call<Status>>, index': nat, ghost done': seq<seq<Byte>>)
      requires Valid() && k < |stream.cfg.signals| && |ss| == |stream.cfg.signals| && index <= |p| && |done| == k
      requires samples == done + ss[k..]
      requires spec == After(done, VnadUnpack(p, index, stream.cfg.signals, k))
      modifies this`samples
      ensures Valid()
      ensures stop.None? ==> index' <= |p| && |done'| == k + 1 && samples == done' + ss[k + 1..]
      ensures stop.None? ==> spec == After(done', VnadUnpack(p, index', stream.cfg.signals, k + 1))
      ensures stop == Some(Returns(Failure)) ==> spec == Returns(Entries(done, false)) && samples == done + ss[k..]
      ensures stop.Some? ==> stop.value == Returns(Failure) || (stop.value == Throws && spec == Throws) || (stop.value == OutOfBounds && spec == OutOfBounds)
    {
      var sigs := stream.cfg.signals;
      var sig := sigs[k];
      index', done' := index, done;
      if |p| - index < 2 {
        return Some(OutOfBounds), index', done';
      }
      var n := SizeAt(p, index);
      if n > sig.maxSizeBytes {
        assert done + [] == done;
        return Some(Returns(Failure)), index', done';
      }
      if index + 2 + n > |p| {
        return Some(OutOfBounds), index', done';
      }
      var c := SwapCopied(p[index + 2..index + 2 + n], sig.nadType);
      if c.Raised? {
        return Some(Throws), index', done';
      }
      if c.Overruns? {
        return Some(OutOfBounds), index', done';
      }
      UnpackCopies(p, index, sigs, k, n, c.bytes);
      AfterTurn(done, c.bytes, VnadUnpack(p, index + 2 + n, sigs, k + 1));
      samples := samples[k := c.bytes];
      assert samples == (done + [c.bytes]) + ss[k + 1..];
      done' := done + [c.bytes];
      index' := index + 2 + n;
      stop := None;
    }

    /** The signal loop of `pop`: each size read, checked and its bytes swap-copied into the signal's sample. */
    method UnpackAll(p: seq<Byte>) returns (r: Call<Status>)
      requires Valid()
      modifies this`samples
      ensures Valid()
      ensures match VnadUnpack(p, 0, stream.cfg.signals, 0)
        case Returns(e) =>
          |e.values| <= |old(samples)| && r == Returns(if e.complete then Success else Failure) &&
          samples == e.values + old(samples)[|e.values|..]
        case Throws => r == Throws
        case OutOfBounds => r == OutOfBounds
    {
      var sigs := stream.cfg.signals;
      ghost var ss := samples;
      ghost var spec := VnadUnpack(p, 0, sigs, 0);
      ghost var done: seq<seq<Byte>> := [];
      var index: nat := 0;
      var k := 0;
      assert spec == After([], spec) by {
        if spec.Returns? {
          assert [] + spec.value.values == spec.value.values;
        }
      }
      while k < |sigs|
        invariant k <= |sigs| && index <= |p| && |done| == k && Valid() && |ss| == |sigs|
        invariant samples == done + ss[k..]
        invariant spec == After(done, VnadUnpack(p, index, sigs, k))
      {
        var t;
        t, index, done := UnpackTurn(p, k, index, ss, spec, done);
        if t.Some? {
          return t.value;
        }
        k := k + 1;
      }
      assert done + [] == done;
      r := Returns(Success);
    }
  }
}
