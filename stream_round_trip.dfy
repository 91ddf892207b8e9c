/**
 * Decoding a payload produced by `EncodeFrom` gives back the samples that
 * were encoded: their payloads always, and their data timestamps as far as
 * the stream's timestamp options carry them.
 */
module StreamRoundTrip {
  import opened Types
  import opened Swaps
  import opened DataTimestamps
  import opened CircularBuffer
  import opened StreamWire

  /**
   * A payload the decoder gives back unchanged: it fits the stream, fills
   * it for the fixed-size types (whose decoder always takes
   * `SampleMaxSizeBytes` bytes), its swaps undo themselves, and its
   * encoding is not empty (an empty sample leaves the decoder where it was).
   */
  predicate Recoverable(cfg: StreamConfig, p: seq<Byte>)
  {
    |p| <= cfg.maxSizeBytes &&
    (FixedSize(cfg.kind) ==> |p| == cfg.maxSizeBytes) &&
    SwapsUndo(cfg, p) &&
    (|p| > 0 || PrefixLength(cfg) > 0 || (cfg.dataTimestamp && cfg.sampleOffset))
  }

  /** The timestamp the decoder reads for a sample stamped `t`, written at `index` against `base`. */
  function StampSeen(enabled: bool, sampleOffset: bool, t: Timestamp, base: Timestamp, index: nat): Timestamp
  {
    if enabled && index == 0 then t
    else if enabled && sampleOffset then ApplyOffset(base, ToInt32(OffsetWord(base, t)))
    else base
  }

  /** The stamp part `w` written for sample `v` at `index` lies in `frame` there. */
  predicate StampInFrame(cfg: StreamConfig, v: SampleValue, index: nat, frameSize: nat, base: Timestamp, frame: seq<Byte>, w: StampWrite)
  {
    w == EncodeStamp(cfg.dataTimestamp, cfg.sampleOffset, v.dataTimestamp, base, index, frameSize) && w.StampWrite? &&
    index + |w.bytes| <= |frame| && frame[index..index + |w.bytes|] == w.bytes
  }

  /**
   * The body written for the recoverable payload `p` at `index` is `body`,
   * and it lies in `frame` there (and ends it, for A664 without message
   * sizes).
   */
  predicate BodyInFrame(cfg: StreamConfig, p: seq<Byte>, index: nat, frameSize: nat, frame: seq<Byte>, body: seq<Byte>)
  {
    SupportedKind(cfg.kind) && Recoverable(cfg, p) && EncodeBody(cfg, p, index, frameSize) == Ok(body) &&
    index + |body| <= |frame| && frame[index..index + |body|] == body &&
    (cfg.kind == STREAM_A664 && !cfg.messageSize ==> |frame| == index + |body|)
  }

  /** The decoder finds a body at `index` in `frame` at `start`, `size` bytes long, and its swaps give `p`. */
  predicate BodyDecoded(cfg: StreamConfig, frame: seq<Byte>, index: nat, start: nat, size: nat, p: seq<Byte>)
  {
    SupportedKind(cfg.kind) && index <= |frame| &&
    DecodeBody(cfg, frame, index) == Some((start, size)) && start + size <= |frame| &&
    SwapPayload(cfg, frame[start..start + size]) == Some(p)
  }

  /** The data-timestamp part reads back what was written, and moves the base the same way. */
  lemma StampRoundTrip(cfg: StreamConfig, v: SampleValue, index: nat, frameSize: nat, base: Timestamp, frame: seq<Byte>, w: StampWrite)
    returns (seen: Timestamp)
    requires StampInFrame(cfg, v, index, frameSize, base, frame, w)
    ensures seen == StampSeen(cfg.dataTimestamp, cfg.sampleOffset, v.dataTimestamp, base, index)
    ensures DecodeStamp(cfg.dataTimestamp, cfg.sampleOffset, frame, index, base) == StampRead(seen, index + |w.bytes|, w.base)
  {
    var t := v.dataTimestamp;
    if cfg.dataTimestamp && index == 0 {
      ReadTimestampInverse(t, frame, 0);
    } else if cfg.dataTimestamp && cfg.sampleOffset {
      ReadBE32Inverse(OffsetWord(base, t), frame, index);
    }
    seen := StampSeen(cfg.dataTimestamp, cfg.sampleOffset, t, base, index);
  }

  /** The body part reads back the payload written at `index`. */
  lemma BodyRoundTrip(cfg: StreamConfig, p: seq<Byte>, index: nat, frameSize: nat, frame: seq<Byte>, body: seq<Byte>) returns (start: nat, size: nat)
    requires BodyInFrame(cfg, p, index, frameSize, frame, body)
    ensures BodyDecoded(cfg, frame, index, start, size, p) && start + size == index + |body|
  {
    if FixedSize(cfg.kind) {
      start, size := FixedBodyRoundTrip(cfg, p, index, frameSize, frame, body);
    } else if cfg.kind == STREAM_A664 && !cfg.messageSize {
      start, size := RawBodyRoundTrip(cfg, p, index, frameSize, frame, body);
    } else if (cfg.kind == STREAM_A825 || cfg.kind == STREAM_AUDIO) {
      start, size := ByteBodyRoundTrip(cfg, p, index, frameSize, frame, body);
    } else if cfg.kind == STREAM_SERIAL {
      start, size := SerialBodyRoundTrip(cfg, p, index, frameSize, frame, body);
    } else {
      start, size := WordBodyRoundTrip(cfg, p, index, frameSize, frame, body);
    }
  }

  /** A429, DISCRETE, ANALOG, NAD: the body is the (swapped) payload. */
  lemma FixedBodyRoundTrip(cfg: StreamConfig, p: seq<Byte>, index: nat, frameSize: nat, frame: seq<Byte>, body: seq<Byte>) returns (start: nat, size: nat)
    requires FixedSize(cfg.kind)
    requires BodyInFrame(cfg, p, index, frameSize, frame, body)
    ensures BodyDecoded(cfg, frame, index, start, size, p) && start + size == index + |body|
  {
    var q := SwapPayload(cfg, p).value;
    assert body == q;
    start, size := index, |q|;
  }

  /** A664 without message sizes: the body is the payload and ends the frame. */
  lemma RawBodyRoundTrip(cfg: StreamConfig, p: seq<Byte>, index: nat, frameSize: nat, frame: seq<Byte>, body: seq<Byte>) returns (start: nat, size: nat)
    requires cfg.kind == STREAM_A664 && !cfg.messageSize
    requires BodyInFrame(cfg, p, index, frameSize, frame, body)
    ensures BodyDecoded(cfg, frame, index, start, size, p) && start + size == index + |body|
  {
    assert body == p;
    start, size := index, |p|;
  }

  /** A825 and AUDIO: an 8-bit size, then the payload. */
  lemma ByteBodyRoundTrip(cfg: StreamConfig, p: seq<Byte>, index: nat, frameSize: nat, frame: seq<Byte>, body: seq<Byte>) returns (start: nat, size: nat)
    requires cfg.kind == STREAM_A825 || cfg.kind == STREAM_AUDIO
    requires BodyInFrame(cfg, p, index, frameSize, frame, body)
    ensures BodyDecoded(cfg, frame, index, start, size, p) && start + size == index + |body|
  {
    assert body == [|p|] + p;
    SliceOfConcat(frame, index, [|p|], p);
    assert frame[index] == frame[index..index + 1][0];
    start, size := index + 1, |p|;
  }

  /** SERIAL: a host-order 16-bit size, then the payload. */
  lemma SerialBodyRoundTrip(cfg: StreamConfig, p: seq<Byte>, index: nat, frameSize: nat, frame: seq<Byte>, body: seq<Byte>) returns (start: nat, size: nat)
    requires cfg.kind == STREAM_SERIAL
    requires BodyInFrame(cfg, p, index, frameSize, frame, body)
    ensures BodyDecoded(cfg, frame, index, start, size, p) && start + size == index + |body|
  {
    assert body == LE16(|p|) + p;
    SliceOfConcat(frame, index, LE16(|p|), p);
    ReadLE16Inverse(|p|, frame, index);
    start, size := index + 2, |p|;
  }

  /** A664 with message sizes and VNAD: a big-endian 16-bit size, then the (swapped) payload. */
  lemma WordBodyRoundTrip(cfg: StreamConfig, p: seq<Byte>, index: nat, frameSize: nat, frame: seq<Byte>, body: seq<Byte>) returns (start: nat, size: nat)
    requires (cfg.kind == STREAM_A664 && cfg.messageSize) || cfg.kind == STREAM_VNAD
    requires BodyInFrame(cfg, p, index, frameSize, frame, body)
    ensures BodyDecoded(cfg, frame, index, start, size, p) && start + size == index + |body|
  {
    var r := SwapPayload(cfg, p).value;
    assert body == BE16(|r|) + r;
    SliceOfConcat(frame, index, BE16(|r|), r);
    ReadBE16Inverse(|r|, frame, index);
    start, size := index + 2, |r|;
  }

  /** The two parts of a slice that holds a concatenation. */
  lemma SliceOfConcat(frame: seq<Byte>, index: nat, a: seq<Byte>, b: seq<Byte>)
    requires index + |a| + |b| <= |frame| && frame[index..index + |a| + |b|] == a + b
    ensures frame[index..index + |a|] == a && frame[index + |a|..index + |a| + |b|] == b
  {
    assert frame[index..index + |a|] == (a + b)[..|a|];
    assert frame[index + |a|..index + |a| + |b|] == (a + b)[|a|..];
  }

  /** An encoded recoverable sample is never empty. */
  lemma EncodedNotEmpty(cfg: StreamConfig, v: SampleValue, index: nat, frameSize: nat, base: Timestamp)
    requires SupportedKind(cfg.kind) && Recoverable(cfg, v.payload)
    requires EncodeOne(cfg, v, index, frameSize, base).Wrote?
    ensures |EncodeOne(cfg, v, index, frameSize, base).bytes| > 0
  {
    var w, body := EncodeOneParts(cfg, v, index, frameSize, base);
    if |v.payload| > 0 || PrefixLength(cfg) > 0 {
      BodyNotEmpty(cfg, v.payload, index + |w.bytes|, frameSize, body);
    }
  }

  /** A body is never empty when the payload is not, or when the stream type writes a size. */
  lemma BodyNotEmpty(cfg: StreamConfig, p: seq<Byte>, index: nat, frameSize: nat, body: seq<Byte>)
    requires SupportedKind(cfg.kind) && EncodeBody(cfg, p, index, frameSize) == Ok(body)
    requires |p| > 0 || PrefixLength(cfg) > 0
    ensures |body| > 0
  {
  }

  /** `EncodeOne` of a sample that was written: its timestamp part, then its body. */
  lemma EncodeOneParts(cfg: StreamConfig, v: SampleValue, index: nat, frameSize: nat, base: Timestamp) returns (w: StampWrite, body: seq<Byte>)
    requires SupportedKind(cfg.kind) && EncodeOne(cfg, v, index, frameSize, base).Wrote?
    ensures w == EncodeStamp(cfg.dataTimestamp, cfg.sampleOffset, v.dataTimestamp, base, index, frameSize) && w.StampWrite?
    ensures EncodeBody(cfg, v.payload, index + |w.bytes|, frameSize) == Ok(body)
    ensures EncodeOne(cfg, v, index, frameSize, base) == Wrote(w.bytes + body, w.base)
  {
    w := EncodeStamp(cfg.dataTimestamp, cfg.sampleOffset, v.dataTimestamp, base, index, frameSize);
    body := EncodeBody(cfg, v.payload, index + |w.bytes|, frameSize).bytes;
  }

  /** One sample: decoding what `EncodeOne` wrote gives the payload and the timestamp seen. */
  lemma OneRoundTrip(cfg: StreamConfig, v: SampleValue, index: nat, frameSize: nat, base: Timestamp, frame: seq<Byte>)
    requires SupportedKind(cfg.kind) && Recoverable(cfg, v.payload)
    requires EncodeOne(cfg, v, index, frameSize, base).Wrote?
    requires var bytes := EncodeOne(cfg, v, index, frameSize, base).bytes;
      index + |bytes| <= |frame| && frame[index..index + |bytes|] == bytes &&
      (cfg.kind == STREAM_A664 && !cfg.messageSize ==> |frame| == index + |bytes|)
    ensures var s := EncodeOne(cfg, v, index, frameSize, base);
      DecodeOne(cfg, frame, index, base) ==
        Parsed(Item(v.payload, StampSeen(cfg.dataTimestamp, cfg.sampleOffset, v.dataTimestamp, base, index)),
               index + |s.bytes|, s.base)
  {
    var w, body := EncodeOneParts(cfg, v, index, frameSize, base);
    PartsInFrame(cfg, v, index, frameSize, base, frame, w, body);
    var item, next := PartsRoundTrip(cfg, v, index, frameSize, base, frame, w, body);
  }

  /** The stamp part and the body of a written sample, each where it lies in the frame. */
  lemma PartsInFrame(cfg: StreamConfig, v: SampleValue, index: nat, frameSize: nat, base: Timestamp, frame: seq<Byte>,
                     w: StampWrite, body: seq<Byte>)
    requires SupportedKind(cfg.kind) && Recoverable(cfg, v.payload)
    requires w == EncodeStamp(cfg.dataTimestamp, cfg.sampleOffset, v.dataTimestamp, base, index, frameSize) && w.StampWrite?
    requires EncodeBody(cfg, v.payload, index + |w.bytes|, frameSize) == Ok(body)
    requires index + |w.bytes + body| <= |frame| && frame[index..index + |w.bytes + body|] == w.bytes + body
    requires cfg.kind == STREAM_A664 && !cfg.messageSize ==> |frame| == index + |w.bytes + body|
    ensures StampInFrame(cfg, v, index, frameSize, base, frame, w)
    ensures BodyInFrame(cfg, v.payload, index + |w.bytes|, frameSize, frame, body)
  {
    SliceOfConcat(frame, index, w.bytes, body);
  }

  /** `OneRoundTrip` once the written bytes are split into their stamp and body parts. */
  lemma PartsRoundTrip(cfg: StreamConfig, v: SampleValue, index: nat, frameSize: nat, base: Timestamp, frame: seq<Byte>,
                       w: StampWrite, body: seq<Byte>) returns (item: Item, next: nat)
    requires StampInFrame(cfg, v, index, frameSize, base, frame, w)
    requires BodyInFrame(cfg, v.payload, index + |w.bytes|, frameSize, frame, body)
    ensures item == Item(v.payload, StampSeen(cfg.dataTimestamp, cfg.sampleOffset, v.dataTimestamp, base, index))
    ensures next == index + |w.bytes| + |body|
    ensures DecodeOne(cfg, frame, index, base) == Parsed(item, next, w.base)
  {
    var seen := StampRoundTrip(cfg, v, index, frameSize, base, frame, w);
    var start, size := BodyRoundTrip(cfg, v.payload, index + |w.bytes|, frameSize, frame, body);
    DecodeOneOf(cfg, frame, index, base, seen, index + |w.bytes|, w.base, start, size, v.payload);
    item, next := Item(v.payload, seen), start + size;
  }

  /** `DecodeOne` when each of its three steps succeeds. */
  lemma DecodeOneOf(cfg: StreamConfig, frame: seq<Byte>, index: nat, base: Timestamp,
                    seen: Timestamp, i: nat, b: Timestamp, start: nat, size: nat, p: seq<Byte>)
    requires index <= i && BodyDecoded(cfg, frame, i, start, size, p)
    requires DecodeStamp(cfg.dataTimestamp, cfg.sampleOffset, frame, index, base) == StampRead(seen, i, b)
    ensures DecodeOne(cfg, frame, index, base) == Parsed(Item(p, seen), start + size, b)
  {
  }

  /** The decoder's base for the samples after `index`: the first stamp once it has been read. */
  function Anchor(cfg: StreamConfig, q: seq<SampleValue>, index: nat, base: Timestamp): Timestamp
  {
    if cfg.dataTimestamp && index == 0 && q != [] then q[0].dataTimestamp else base
  }

  /** An A664 stream without message sizes: one sample per payload. */
  predicate OnePerPayload(cfg: StreamConfig)
  {
    cfg.kind == STREAM_A664 && !cfg.messageSize
  }

  /**
   * `frame` holds, from `index` on, exactly the bytes of an encode call
   * on `q` that ended without error, and every sample it took is
   * recoverable.
   */
  predicate EncodedRun(cfg: StreamConfig, q: seq<SampleValue>, index: nat, frameSize: nat, base: Timestamp, frame: seq<Byte>)
  {
    SupportedKind(cfg.kind) &&
    var r := EncodeFrom(cfg, q, index, frameSize, base);
    r.error.None? && (forall i {:trigger Recoverable(cfg, q[i].payload)} | 0 <= i < r.taken :: Recoverable(cfg, q[i].payload)) &&
    |frame| == index + |r.bytes| && frame[index..] == r.bytes
  }

  /** `EncodeFrom` after a first sample that was written and does not end the call. */
  lemma EncodeFromStep(cfg: StreamConfig, q: seq<SampleValue>, index: nat, frameSize: nat, base: Timestamp)
    requires SupportedKind(cfg.kind) && q != [] && !OnePerPayload(cfg)
    requires EncodeOne(cfg, q[0], index, frameSize, base).Wrote?
    ensures var s := EncodeOne(cfg, q[0], index, frameSize, base);
      var rest := EncodeFrom(cfg, q[1..], index + |s.bytes|, frameSize, s.base);
      EncodeFrom(cfg, q, index, frameSize, base) == Run(s.bytes + rest.bytes, 1 + rest.taken, rest.base, rest.error)
  {
  }

  /** The encoder side of the first sample of an encoded run. */
  lemma FirstEncoded(cfg: StreamConfig, q: seq<SampleValue>, index: nat, frameSize: nat, base: Timestamp, frame: seq<Byte>) returns (next: nat)
    requires EncodedRun(cfg, q, index, frameSize, base, frame) && q != []
    ensures var s := EncodeOne(cfg, q[0], index, frameSize, base);
      s.Wrote? && Recoverable(cfg, q[0].payload) && s.base == Anchor(cfg, q, index, base) &&
      next == index + |s.bytes| && index < next <= |frame| && frame[index..next] == s.bytes &&
      (OnePerPayload(cfg) ==> |frame| == next)
    ensures OnePerPayload(cfg) ==> EncodeFrom(cfg, q, index, frameSize, base).taken == 1
  {
    var r := EncodeFrom(cfg, q, index, frameSize, base);
    var s := EncodeOne(cfg, q[0], index, frameSize, base);
    assert s.Wrote? && Recoverable(cfg, q[0].payload) by {
      assert 0 < r.taken;
    }
    EncodedNotEmpty(cfg, q[0], index, frameSize, base);
    next := index + |s.bytes|;
    if OnePerPayload(cfg) {
      assert r == Run(s.bytes, 1, s.base, None);
      FrameSplit(frame, index, s.bytes, []);
    } else {
      EncodeFromStep(cfg, q, index, frameSize, base);
      FrameSplit(frame, index, s.bytes, EncodeFrom(cfg, q[1..], next, frameSize, s.base).bytes);
    }
  }

  /** After the first sample, unless it ended the call, the frame holds the encoded run of the rest. */
  lemma RestEncoded(cfg: StreamConfig, q: seq<SampleValue>, index: nat, frameSize: nat, base: Timestamp, frame: seq<Byte>, next: nat)
    requires EncodedRun(cfg, q, index, frameSize, base, frame) && q != [] && !OnePerPayload(cfg)
    requires EncodeOne(cfg, q[0], index, frameSize, base).Wrote?
    requires next == index + |EncodeOne(cfg, q[0], index, frameSize, base).bytes|
    ensures var first := EncodeOne(cfg, q[0], index, frameSize, base).base;
      EncodedRun(cfg, q[1..], next, frameSize, first, frame) &&
      EncodeFrom(cfg, q, index, frameSize, base).taken == 1 + EncodeFrom(cfg, q[1..], next, frameSize, first).taken
  {
    var s := EncodeOne(cfg, q[0], index, frameSize, base);
    EncodeFromStep(cfg, q, index, frameSize, base);
    var rest := EncodeFrom(cfg, q[1..], next, frameSize, s.base);
    FrameSplit(frame, index, s.bytes, rest.bytes);
    RestRecoverable(cfg, q, rest.taken);
    EncodedRunOf(cfg, q[1..], next, frameSize, s.base, frame, rest);
  }

  /** `EncodedRun` from the facts about the run `r` it is made of. */
  lemma EncodedRunOf(cfg: StreamConfig, q: seq<SampleValue>, index: nat, frameSize: nat, base: Timestamp, frame: seq<Byte>, r: Run)
    requires SupportedKind(cfg.kind) && r == EncodeFrom(cfg, q, index, frameSize, base) && r.error.None?
    requires forall i {:trigger Recoverable(cfg, q[i].payload)} | 0 <= i < r.taken :: Recoverable(cfg, q[i].payload)
    requires |frame| == index + |r.bytes| && frame[index..] == r.bytes
    ensures EncodedRun(cfg, q, index, frameSize, base, frame)
  {
  }

  /** A frame holding `a + b` from `index` on holds `a` there and `b` right after. */
  lemma FrameSplit(frame: seq<Byte>, index: nat, a: seq<Byte>, b: seq<Byte>)
    requires |frame| == index + |a + b| && frame[index..] == a + b
    ensures frame[index..index + |a|] == a && frame[index + |a|..] == b
  {
    assert frame[index..index + |a|] == frame[index..][..|a|];
    assert frame[index + |a|..] == frame[index..][|a|..];
  }

  /** The samples after the first that a run took are recoverable when all it took are. */
  lemma RestRecoverable(cfg: StreamConfig, q: seq<SampleValue>, n: nat)
    requires q != [] && n < |q|
    requires forall i {:trigger Recoverable(cfg, q[i].payload)} | 0 <= i < 1 + n :: Recoverable(cfg, q[i].payload)
    ensures forall i {:trigger Recoverable(cfg, q[1..][i].payload)} | 0 <= i < n :: Recoverable(cfg, q[1..][i].payload)
  {
    forall i | 0 <= i < n
      ensures Recoverable(cfg, q[1..][i].payload)
    {
      assert q[1..][i] == q[i + 1];
      assert Recoverable(cfg, q[i + 1].payload);
    }
  }

  /** `DecodeFrom` after a first sample that was parsed and moved the index forward. */
  lemma DecodeFromStep(cfg: StreamConfig, frame: seq<Byte>, index: nat, base: Timestamp, item: Item, next: nat, b: Timestamp)
    requires SupportedKind(cfg.kind) && index < next <= |frame|
    requires DecodeOne(cfg, frame, index, base) == Parsed(item, next, b)
    ensures var rest := DecodeFrom(cfg, frame, next, b);
      DecodeFrom(cfg, frame, index, base) == Decoding([item] + rest.items, rest.status)
  {
  }

  /** Every one of the first `n` stamps is normalized and lies within a signed 32-bit nanosecond distance of `first`. */
  predicate StampsWithin(q: seq<SampleValue>, n: nat, first: Timestamp)
  {
    Normalized(first) &&
    forall i | 0 <= i < n && i < |q| :: Normalized(q[i].dataTimestamp) && FitsOffset(Elapsed(first, q[i].dataTimestamp))
  }

  /** The decoder side of the first sample: the item it pushes, then whatever the rest of the frame gives. */
  lemma FirstDecoded(cfg: StreamConfig, q: seq<SampleValue>, index: nat, frameSize: nat, base: Timestamp, frame: seq<Byte>, next: nat) returns (item: Item)
    requires SupportedKind(cfg.kind) && q != []
    requires var s := EncodeOne(cfg, q[0], index, frameSize, base);
      s.Wrote? && Recoverable(cfg, q[0].payload) && s.base == Anchor(cfg, q, index, base) &&
      next == index + |s.bytes| && index < next <= |frame| && frame[index..next] == s.bytes &&
      (OnePerPayload(cfg) ==> |frame| == next)
    ensures item.payload == q[0].payload
    ensures cfg.dataTimestamp && cfg.sampleOffset && StampsWithin(q, 1, Anchor(cfg, q, index, base)) ==>
      item.stamp == q[0].dataTimestamp
    ensures !(cfg.dataTimestamp && cfg.sampleOffset) ==> item.stamp == Anchor(cfg, q, index, base)
    ensures var first := Anchor(cfg, q, index, base);
      DecodeFrom(cfg, frame, index, base) ==
        Decoding([item] + DecodeFrom(cfg, frame, next, first).items, DecodeFrom(cfg, frame, next, first).status)
  {
    var v := q[0];
    var s := EncodeOne(cfg, v, index, frameSize, base);
    OneRoundTrip(cfg, v, index, frameSize, base, frame);
    item := Item(v.payload, StampSeen(cfg.dataTimestamp, cfg.sampleOffset, v.dataTimestamp, base, index));
    DecodeFromStep(cfg, frame, index, base, item, next, s.base);
    if cfg.dataTimestamp && cfg.sampleOffset && index != 0 && StampsWithin(q, 1, base) {
      ApplyOffsetRecovers(base, v.dataTimestamp);
    }
  }

  /**
   * Decoding the bytes `EncodeFrom` wrote from `index` on, starting from
   * the same base, gives back every sample taken, in order, and the whole
   * frame is consumed.
   */
  lemma {:induction false} RunRoundTrip(cfg: StreamConfig, q: seq<SampleValue>, index: nat, frameSize: nat, base: Timestamp, frame: seq<Byte>)
    requires EncodedRun(cfg, q, index, frameSize, base, frame)
    ensures var r := EncodeFrom(cfg, q, index, frameSize, base);
      var d := DecodeFrom(cfg, frame, index, base);
      d.status == Complete && |d.items| == r.taken &&
      (forall i | 0 <= i < r.taken :: d.items[i].payload == q[i].payload)
    decreases |q|
  {
    if q == [] {
      assert DecodeFrom(cfg, frame, index, base) == Decoding([], Complete);
    } else {
      var next := FirstEncoded(cfg, q, index, frameSize, base, frame);
      var item := FirstDecoded(cfg, q, index, frameSize, base, frame, next);
      var first := Anchor(cfg, q, index, base);
      var dr := DecodeFrom(cfg, frame, next, first);
      if OnePerPayload(cfg) {
        assert dr == Decoding([], Complete);
      } else {
        RestEncoded(cfg, q, index, frameSize, base, frame, next);
        RunRoundTrip(cfg, q[1..], next, frameSize, first, frame);
        PayloadsOfCons(item, dr.items, q);
      }
    }
  }

  /**
   * With data timestamps and sample offsets, each decoded sample has the
   * timestamp it was sent with, provided the stamps are normalized and
   * within a signed 32-bit nanosecond distance of the first one.
   */
  lemma {:induction false} RunStampsExact(cfg: StreamConfig, q: seq<SampleValue>, index: nat, frameSize: nat, base: Timestamp, frame: seq<Byte>)
    requires EncodedRun(cfg, q, index, frameSize, base, frame)
    requires cfg.dataTimestamp && cfg.sampleOffset
    requires StampsWithin(q, EncodeFrom(cfg, q, index, frameSize, base).taken, Anchor(cfg, q, index, base))
    ensures var r := EncodeFrom(cfg, q, index, frameSize, base);
      var d := DecodeFrom(cfg, frame, index, base);
      |d.items| == r.taken && forall i | 0 <= i < r.taken :: d.items[i].stamp == q[i].dataTimestamp
    decreases |q|
  {
    if q == [] {
      assert DecodeFrom(cfg, frame, index, base) == Decoding([], Complete);
    } else {
      var next := FirstEncoded(cfg, q, index, frameSize, base, frame);
      var item := FirstDecoded(cfg, q, index, frameSize, base, frame, next);
      var first := Anchor(cfg, q, index, base);
      var dr := DecodeFrom(cfg, frame, next, first);
      if OnePerPayload(cfg) {
        assert dr == Decoding([], Complete);
      } else {
        RestEncoded(cfg, q, index, frameSize, base, frame, next);
        var n := EncodeFrom(cfg, q[1..], next, frameSize, first).taken;
        assert Anchor(cfg, q[1..], next, first) == first;
        StampsWithinRest(q, n, first);
        RunStampsExact(cfg, q[1..], next, frameSize, first, frame);
        StampsOfCons(item, dr.items, q);
      }
    }
  }

  /** The bound on the first `1 + n` stamps bounds the first `n` after the first sample. */
  lemma StampsWithinRest(q: seq<SampleValue>, n: nat, first: Timestamp)
    requires q != [] && StampsWithin(q, 1 + n, first)
    ensures StampsWithin(q[1..], n, first)
  {
    forall i | 0 <= i < n && i < |q[1..]|
      ensures Normalized(q[1..][i].dataTimestamp) && FitsOffset(Elapsed(first, q[1..][i].dataTimestamp))
    {
      assert q[1..][i] == q[i + 1];
    }
  }

  /** Decoded items that carry the stamps of `q[1..]`, after one that carries `q[0]`'s, carry the stamps of `q`. */
  lemma StampsOfCons(item: Item, rest: seq<Item>, q: seq<SampleValue>)
    requires q != [] && |rest| < |q| && item.stamp == q[0].dataTimestamp
    requires forall i | 0 <= i < |rest| :: rest[i].stamp == q[1..][i].dataTimestamp
    ensures forall i | 0 <= i < 1 + |rest| :: ([item] + rest)[i].stamp == q[i].dataTimestamp
  {
    forall i | 0 <= i < 1 + |rest|
      ensures ([item] + rest)[i].stamp == q[i].dataTimestamp
    {
      if i > 0 {
        assert ([item] + rest)[i] == rest[i - 1];
        assert q[1..][i - 1] == q[i];
      }
    }
  }

  /** Decoded items that carry the payloads of `q[1..]`, after one that carries `q[0]`'s, carry the payloads of `q`. */
  lemma PayloadsOfCons(item: Item, rest: seq<Item>, q: seq<SampleValue>)
    requires q != [] && |rest| < |q| && item.payload == q[0].payload
    requires forall i | 0 <= i < |rest| :: rest[i].payload == q[1..][i].payload
    ensures forall i | 0 <= i < 1 + |rest| :: ([item] + rest)[i].payload == q[i].payload
  {
    forall i | 0 <= i < 1 + |rest|
      ensures ([item] + rest)[i].payload == q[i].payload
    {
      if i > 0 {
        assert ([item] + rest)[i] == rest[i - 1];
        assert q[1..][i - 1] == q[i];
      }
    }
  }

  /** Without sample offsets every decoded sample gets the same timestamp: the first one's, or none. */
  lemma {:induction false} RunStampsShared(cfg: StreamConfig, q: seq<SampleValue>, index: nat, frameSize: nat, base: Timestamp, frame: seq<Byte>)
    requires EncodedRun(cfg, q, index, frameSize, base, frame)
    requires !(cfg.dataTimestamp && cfg.sampleOffset)
    ensures var r := EncodeFrom(cfg, q, index, frameSize, base);
      var d := DecodeFrom(cfg, frame, index, base);
      |d.items| == r.taken && forall i | 0 <= i < r.taken :: d.items[i].stamp == Anchor(cfg, q, index, base)
    decreases |q|
  {
    if q == [] {
      assert DecodeFrom(cfg, frame, index, base) == Decoding([], Complete);
    } else {
      var next := FirstEncoded(cfg, q, index, frameSize, base, frame);
      var item := FirstDecoded(cfg, q, index, frameSize, base, frame, next);
      var first := Anchor(cfg, q, index, base);
      var dr := DecodeFrom(cfg, frame, next, first);
      if OnePerPayload(cfg) {
        assert dr == Decoding([], Complete);
      } else {
        RestEncoded(cfg, q, index, frameSize, base, frame, next);
        assert Anchor(cfg, q[1..], next, first) == first;
        RunStampsShared(cfg, q[1..], next, frameSize, first, frame);
      }
    }
  }

  /**
   * The round trip of a whole payload: `DecodeFrom` on the bytes of
   * `EncodeFrom` gives back the samples taken from the send stack. With
   * data timestamps and sample offsets every sample keeps its own
   * timestamp, provided it lies within a signed 32-bit nanosecond distance
   * of the first; with data timestamps alone every sample gets the first
   * sample's.
   */
  lemma EncodeThenDecode(cfg: StreamConfig, q: seq<SampleValue>, frameSize: nat, base: Timestamp)
    requires SupportedKind(cfg.kind)
    requires var r := EncodeFrom(cfg, q, 0, frameSize, base);
      r.error.None? && forall i | 0 <= i < r.taken :: Recoverable(cfg, q[i].payload)
    ensures var r := EncodeFrom(cfg, q, 0, frameSize, base);
      var d := DecodeFrom(cfg, r.bytes, 0, base);
      d.status == Complete && |d.items| == r.taken &&
      (forall i | 0 <= i < r.taken :: d.items[i].payload == q[i].payload) &&
      (cfg.dataTimestamp && cfg.sampleOffset && q != [] && StampsWithin(q, r.taken, q[0].dataTimestamp) ==>
        forall i | 0 <= i < r.taken :: d.items[i].stamp == q[i].dataTimestamp) &&
      (cfg.dataTimestamp && !cfg.sampleOffset ==> forall i | 0 <= i < r.taken :: d.items[i].stamp == q[0].dataTimestamp)
  {
    var r := EncodeFrom(cfg, q, 0, frameSize, base);
    assert r.bytes[0..] == r.bytes;
    assert EncodedRun(cfg, q, 0, frameSize, base, r.bytes);
    RunRoundTrip(cfg, q, 0, frameSize, base, r.bytes);
    if cfg.dataTimestamp && cfg.sampleOffset && q != [] && StampsWithin(q, r.taken, q[0].dataTimestamp) {
      RunStampsExact(cfg, q, 0, frameSize, base, r.bytes);
    }
    if cfg.dataTimestamp && !cfg.sampleOffset {
      RunStampsShared(cfg, q, 0, frameSize, base, r.bytes);
    }
  }
}
