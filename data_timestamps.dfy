/**
 * The data-timestamp prefix of a stream payload (`encode_data_timestamp`
 * and `decode_data_timestamp` of ed247_stream.h). The first sample of a
 * payload carries its data timestamp as two big-endian 32-bit words
 * (seconds, nanoseconds); when sample offsets are enabled every later
 * sample carries a signed 32-bit nanosecond offset from that first one.
 *
 * The C code does this arithmetic in 32-bit integers: the offset is
 * computed with wrap-around, the received word is reinterpreted as
 * `int32_t`, divided with truncation toward zero, and added back into
 * unsigned 32-bit fields. All of that is written out here.
 */
module DataTimestamps {
  import opened Types

  /** Reduction modulo 2^32: what a store into a `uint32_t` keeps. */
  function Wrap32(x: int): (r: U32)
    ensures (x - r) % 0x1_0000_0000 == 0
    ensures 0 <= x < 0x1_0000_0000 ==> r == x
  {
    x % 0x1_0000_0000
  }

  /** The `int32_t` a `uint32_t` word is reinterpreted as. */
  function ToInt32(w: U32): (r: int)
    ensures -0x8000_0000 <= r < 0x8000_0000
    ensures Wrap32(r) == w
  {
    if w < 0x8000_0000 then w else w - 0x1_0000_0000
  }

  /** C integer division, which truncates toward zero. */
  function TruncDiv(a: int, b: int): (q: int)
    requires b > 0
    ensures a >= 0 ==> q == a / b
    ensures a < 0 ==> q == -((-a) / b)
  {
    if a >= 0 then a / b else -((-a) / b)
  }

  /** A nanosecond offset that the precise data timestamp can carry: a signed 32-bit value. */
  predicate FitsOffset(d: int)
  {
    -0x8000_0000 <= d < 0x8000_0000
  }

  /** The exact distance in nanoseconds from `base` to `t`. */
  function Elapsed(base: Timestamp, t: Timestamp): int
  {
    (t.epochS - base.epochS) * 1_000_000_000 + (t.offsetNs - base.offsetNs)
  }

  /**
   * The offset word written for a sample stamped `t` when the first
   * sample of the payload was stamped `base`: the distance, reduced to 32
   * bits as the `int32_t` arithmetic and the `uint32_t` cast leave it.
   */
  function OffsetWord(base: Timestamp, t: Timestamp): (w: U32)
    ensures FitsOffset(Elapsed(base, t)) ==> ToInt32(w) == Elapsed(base, t)
  {
    Wrap32(Elapsed(base, t))
  }

  /** The 8 bytes of the first sample's data timestamp: seconds, then nanoseconds, big-endian. */
  function TimestampBytes(t: Timestamp): (r: seq<Byte>)
    ensures |r| == 8
  {
    BE32(t.epochS) + BE32(t.offsetNs)
  }

  /** Reads a data timestamp written by `TimestampBytes`. */
  function ReadTimestamp(s: seq<Byte>, i: nat): (t: Timestamp)
    requires i + 8 <= |s|
    ensures s[i..i + 8] == TimestampBytes(t)
  {
    var t := Timestamp(ReadBE32(s, i), ReadBE32(s, i + 4));
    assert s[i..i + 8] == TimestampBytes(t) by {
      ReadBE32Bytes(s, i);
      ReadBE32Bytes(s, i + 4);
      assert s[i..i + 8] == s[i..i + 4] + s[i + 4..i + 8];
    }
    t
  }

  /** The four bytes a `ReadBE32` read are the big-endian bytes of the value read. */
  lemma ReadBE32Bytes(s: seq<Byte>, i: nat)
    requires i + 4 <= |s|
    ensures s[i..i + 4] == BE32(ReadBE32(s, i))
  {
  }

  lemma ReadTimestampInverse(t: Timestamp, s: seq<Byte>, i: nat)
    requires i + 8 <= |s| && s[i..i + 8] == TimestampBytes(t)
    ensures ReadTimestamp(s, i) == t
  {
    assert s[i..i + 4] == s[i..i + 8][..4];
    assert s[i + 4..i + 8] == s[i..i + 8][4..];
    ReadBE32Inverse(t.epochS, s, i);
    ReadBE32Inverse(t.offsetNs, s, i + 4);
  }

  /**
   * The received timestamp of a later sample as the decoder of
   * ed247_stream.h computes it: seconds += offset / 10^9 and nanoseconds
   * += the remainder, both truncated toward zero and both stored back
   * into 32-bit unsigned fields without carrying between them.
   */
  function AsWrittenApplyOffset(base: Timestamp, offset: int): (t: Timestamp)
    requires FitsOffset(offset)
  {
    var q := TruncDiv(offset, 1_000_000_000);
    Timestamp(Wrap32(base.epochS + q), Wrap32(base.offsetNs + (offset - q * 1_000_000_000)))
  }

  /**
   * With a base late in its second and a sample early in the next one,
   * the decoded nanosecond field passes 10^9 instead of carrying into the
   * seconds: base (0 s, 900 ms) and sample (1 s, 100 ms) come back as
   * (0 s, 1100 ms).
   */
  lemma AsWrittenOffsetDoesNotCarry()
    ensures var base, t := Timestamp(0, 900_000_000), Timestamp(1, 100_000_000);
      AsWrittenApplyOffset(base, ToInt32(OffsetWord(base, t))) == Timestamp(0, 1_100_000_000) != t
  {
    var base, t := Timestamp(0, 900_000_000), Timestamp(1, 100_000_000);
    assert Elapsed(base, t) == 200_000_000;
    assert ToInt32(OffsetWord(base, t)) == 200_000_000;
  }

  /** A timestamp whose nanosecond field is below one second. */
  predicate Normalized(t: Timestamp)
  {
    t.offsetNs < 1_000_000_000
  }

  /**
   * The received timestamp of a later sample: the base moved by the
   * offset, with the nanoseconds carried into (or borrowed from) the
   * seconds so that the result is normalized again, and the seconds kept
   * to 32 bits.
   */
  function ApplyOffset(base: Timestamp, offset: int): (t: Timestamp)
    ensures Normalized(t)
  {
    var total := base.epochS * 1_000_000_000 + base.offsetNs + offset;
    Timestamp(Wrap32(total / 1_000_000_000), total % 1_000_000_000)
  }

  /**
   * Round trip of the precise data timestamp: a normalized sample stamp
   * within a signed 32-bit nanosecond distance of the payload's first
   * stamp is received exactly as it was sent.
   */
  lemma ApplyOffsetRecovers(base: Timestamp, t: Timestamp)
    requires Normalized(base) && Normalized(t) && FitsOffset(Elapsed(base, t))
    ensures ApplyOffset(base, ToInt32(OffsetWord(base, t))) == t
  {
    var total := base.epochS * 1_000_000_000 + base.offsetNs + Elapsed(base, t);
    assert total == t.epochS * 1_000_000_000 + t.offsetNs;
    DivModOfSplit(t.epochS, t.offsetNs);
  }

  lemma DivModOfSplit(s: nat, ns: nat)
    requires ns < 1_000_000_000
    ensures (s * 1_000_000_000 + ns) / 1_000_000_000 == s && (s * 1_000_000_000 + ns) % 1_000_000_000 == ns
  {
  }

  /**
   * Where the two decoders agree: when the nanosecond distance has the
   * sign of the whole distance, the truncating decoder of the source
   * gives the same timestamp as `ApplyOffset`.
   */
  lemma AsWrittenAgreesWithoutCarry(base: Timestamp, t: Timestamp)
    requires Normalized(base) && Normalized(t) && FitsOffset(Elapsed(base, t))
    requires t.offsetNs >= base.offsetNs <==> Elapsed(base, t) >= 0
    ensures AsWrittenApplyOffset(base, ToInt32(OffsetWord(base, t))) == t
  {
    var d := Elapsed(base, t);
    var s, r := t.epochS - base.epochS, t.offsetNs - base.offsetNs;
    assert d == s * 1_000_000_000 + r;
    if d >= 0 {
      DivOfSplit(s, r);
    } else {
      DivOfSplit(-s, -r);
      assert -d == (-s) * 1_000_000_000 + (-r);
    }
  }

  lemma DivOfSplit(s: int, r: int)
    requires 0 <= r < 1_000_000_000 && s >= 0
    ensures (s * 1_000_000_000 + r) / 1_000_000_000 == s
  {
  }

  /** The outcome of writing the data-timestamp part of one sample. */
  datatype StampWrite = StampWrite(bytes: seq<Byte>, base: Timestamp) | StampTooSmall

  /**
   * `encode_data_timestamp` for a sample stamped `t` at `index` in a frame
   * of `frameSize` bytes: at index 0 the full timestamp (which becomes the
   * new base), later the offset word when sample offsets are enabled, and
   * nothing otherwise. Fails when the bytes would not fit.
   */
  function EncodeStamp(enabled: bool, sampleOffset: bool, t: Timestamp, base: Timestamp, index: nat, frameSize: nat): (r: StampWrite)
    ensures r.StampWrite? && |r.bytes| > 0 ==> index + |r.bytes| <= frameSize
    ensures r.StampWrite? && enabled && index == 0 ==> r.bytes == TimestampBytes(t) && r.base == t
    ensures r.StampWrite? && (!enabled || index != 0) ==> r.base == base
    ensures r.StampWrite? && enabled && index != 0 && sampleOffset ==> r.bytes == BE32(OffsetWord(base, t))
    ensures r.StampWrite? && (!enabled || (index != 0 && !sampleOffset)) ==> r.bytes == []
    ensures r.StampTooSmall? <==> enabled && ((index == 0 && 8 > frameSize) || (index != 0 && sampleOffset && index + 4 > frameSize))
  {
    if !enabled then StampWrite([], base)
    else if index == 0 then
      if index + 8 > frameSize then StampTooSmall else StampWrite(TimestampBytes(t), t)
    else if sampleOffset then
      if index + 4 > frameSize then StampTooSmall else StampWrite(BE32(OffsetWord(base, t)), base)
    else StampWrite([], base)
  }

  /** The outcome of reading the data-timestamp part of one sample. */
  datatype StampRead = StampRead(stamp: Timestamp, next: nat, base: Timestamp) | StampShort | StampPastEnd

  /**
   * `decode_data_timestamp` at `index`: at index 0 the full timestamp
   * (failing when fewer than 8 bytes remain), later the offset applied to
   * the base when sample offsets are enabled, and the base itself
   * otherwise. The source reads the offset word without checking that 4
   * bytes remain; the model reports that read as `StampPastEnd`.
   */
  function DecodeStamp(enabled: bool, sampleOffset: bool, frame: seq<Byte>, index: nat, base: Timestamp): (r: StampRead)
    requires index <= |frame|
    ensures r.StampRead? ==> index <= r.next <= |frame|
    ensures r.StampRead? && enabled && index == 0 ==> r.next == 8 && frame[..8] == TimestampBytes(r.stamp) && r.base == r.stamp
    ensures r.StampRead? && enabled && index != 0 && sampleOffset ==>
      r.next == index + 4 && r.base == base && r.stamp == ApplyOffset(base, ToInt32(ReadBE32(frame, index)))
    ensures r.StampRead? && (!enabled || (index != 0 && !sampleOffset)) ==> r.next == index && r.stamp == base == r.base
    ensures r.StampShort? <==> enabled && index == 0 && |frame| < 8
    ensures r.StampPastEnd? <==> enabled && index != 0 && sampleOffset && index + 4 > |frame|
  {
    if !enabled then StampRead(base, index, base)
    else if index == 0 then
      if |frame| - index < 8 then StampShort
      else
        var t := ReadTimestamp(frame, index);
        StampRead(t, index + 8, t)
    else if sampleOffset then
      if index + 4 > |frame| then StampPastEnd
      else StampRead(ApplyOffset(base, ToInt32(ReadBE32(frame, index))), index + 4, base)
    else StampRead(base, index, base)
  }
}
