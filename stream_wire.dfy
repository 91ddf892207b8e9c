/**
 * The payload formats of `Stream<E>::encode` and `Stream<E>::decode`
 * (ed247_stream.cpp), one per stream type, as functions on byte
 * sequences. `EncodeFrom` gives the bytes, the number of samples taken
 * from the send stack and the error (if any) of an encode call;
 * `DecodeFrom` gives the samples pushed and the outcome of a decode call.
 * The stream methods of `Streams` are proved against these functions.
 */
module StreamWire {
  import opened Types
  import opened XmlRules
  import opened Swaps
  import opened DataTimestamps
  import opened CircularBuffer

  /** The layout of one signal of a signal-based stream: its byte offset, NAD type and size. */
  datatype SignalLayout = SignalLayout(byteOffset: nat, nadType: int, maxSizeBytes: nat)

  /** The configuration of a stream, as the loader produces it. */
  datatype StreamConfig = StreamConfig(
    name: string,
    kind: int,
    direction: Direction,
    maxNumber: U32,
    maxSizeBytes: U32,
    dataTimestamp: bool,
    sampleOffset: bool,
    messageSize: bool,
    signals: seq<SignalLayout>)

  /** The nine stream types that have a `Stream<E>` implementation. */
  predicate SupportedKind(kind: int)
  {
    kind == STREAM_A429 || kind == STREAM_A664 || kind == STREAM_A825 || kind == STREAM_SERIAL ||
    kind == STREAM_AUDIO || kind == STREAM_DISCRETE || kind == STREAM_ANALOG || kind == STREAM_NAD ||
    kind == STREAM_VNAD
  }

  /** The types whose decoder takes exactly `SampleMaxSizeBytes` bytes per sample. */
  predicate FixedSize(kind: int)
  {
    (kind == STREAM_A429 || kind == STREAM_DISCRETE || kind == STREAM_ANALOG || kind == STREAM_NAD)
  }

  /**
   * `check_sample_size`: a sample must fill the stream exactly for A429,
   * A664, A825, SERIAL and AUDIO, and may be shorter for the signal-based
   * types.
   */
  function CheckSampleSize(cfg: StreamConfig, size: nat): (ok: bool)
    requires SupportedKind(cfg.kind)
    ensures (cfg.kind == STREAM_A429 || cfg.kind == STREAM_A664 || cfg.kind == STREAM_A825 || cfg.kind == STREAM_SERIAL || cfg.kind == STREAM_AUDIO) ==>
      (ok <==> size == cfg.maxSizeBytes)
    ensures (cfg.kind == STREAM_DISCRETE || cfg.kind == STREAM_ANALOG || cfg.kind == STREAM_NAD || cfg.kind == STREAM_VNAD) ==>
      (ok <==> size <= cfg.maxSizeBytes)
  {
    if (cfg.kind == STREAM_DISCRETE || cfg.kind == STREAM_ANALOG || cfg.kind == STREAM_NAD || cfg.kind == STREAM_VNAD) then size <= cfg.maxSizeBytes
    else size == cfg.maxSizeBytes
  }

  /** The bytes of the length prefix of one sample, per type (0 for the fixed-size types). */
  function PrefixLength(cfg: StreamConfig): nat
  {
    if cfg.kind == STREAM_A664 then (if cfg.messageSize then 2 else 0)
    else if (cfg.kind == STREAM_A825 || cfg.kind == STREAM_AUDIO) then 1
    else if cfg.kind == STREAM_SERIAL then 2
    else if cfg.kind == STREAM_VNAD then 4
    else 0
  }

  /**
   * `allocate_buffer`: room for `SampleMaxNumber` samples with their
   * length prefixes, plus the 8-byte first timestamp and a 4-byte offset
   * for each further sample when data timestamps are enabled.
   */
  function BufferSize(cfg: StreamConfig): (n: nat)
    requires SupportedKind(cfg.kind)
    ensures !cfg.dataTimestamp ==> n == cfg.maxNumber * (cfg.maxSizeBytes + PrefixLength(cfg))
    ensures cfg.dataTimestamp && cfg.maxNumber > 0 ==>
      n == cfg.maxNumber * (cfg.maxSizeBytes + PrefixLength(cfg)) + 8 + 4 * (cfg.maxNumber - 1)
  {
    var samples := cfg.maxNumber * (cfg.maxSizeBytes + PrefixLength(cfg));
    if cfg.dataTimestamp then
      samples + 8 + (if cfg.maxNumber > 1 then 4 * (cfg.maxNumber - 1) else 0)
    else samples
  }

  // ---------------------------------------------------------------------
  // Byte swaps of the signal-based payloads

  /** A run of `length` bytes at `offset` whose `width`-byte elements are byte-reversed. */
  datatype Region = Region(offset: nat, length: nat, width: nat)

  /**
   * The bytes an ANALOG or NAD signal swaps: the 4-byte field of an ANALOG
   * signal, and `size / type size` whole elements of a NAD signal. A NAD
   * type of size 0 makes the element count a division by zero: none.
   */
  function SignalRegion(kind: int, sig: SignalLayout): (r: Option<Region>)
    ensures r.Some? ==> r.value.width > 0 && r.value.offset == sig.byteOffset
    ensures kind == STREAM_ANALOG ==> r == Some(Region(sig.byteOffset, 4, 4))
    ensures kind != STREAM_ANALOG ==> (r.None? <==> NadTypeSize(sig.nadType) == 0)
  {
    if kind == STREAM_ANALOG then Some(Region(sig.byteOffset, 4, 4))
    else
      var k := NadTypeSize(sig.nadType);
      if k == 0 then None else Some(Region(sig.byteOffset, (sig.maxSizeBytes / k) * k, k))
  }

  /**
   * Swaps one region of a payload in place. A region past the end of the
   * payload touches no payload byte; a region that straddles the end would
   * mix payload bytes with bytes beyond the sample, which the model does
   * not track: none.
   */
  function SwapRegion(p: seq<Byte>, r: Region): (q: Option<seq<Byte>>)
    requires r.width > 0
    ensures q.Some? ==> |q.value| == |p|
    ensures q.None? <==> r.offset < |p| < r.offset + r.length
  {
    if r.offset + r.length <= |p| then
      Some(p[..r.offset] + SwapAll(p[r.offset..r.offset + r.length], r.width) + p[r.offset + r.length..])
    else if r.offset >= |p| then Some(p)
    else None
  }

  /** The swaps of an ANALOG or NAD payload, signal after signal as the encoder and decoder do them. */
  function SwapSignals(p: seq<Byte>, kind: int, sigs: seq<SignalLayout>): (q: Option<seq<Byte>>)
    ensures q.Some? ==> |q.value| == |p|
    decreases |sigs|
  {
    if sigs == [] then Some(p)
    else
      match SignalRegion(kind, sigs[0])
      case None => None
      case Some(r) =>
        match SwapRegion(p, r)
        case None => None
        case Some(p') => SwapSignals(p', kind, sigs[1..])
  }

  /**
   * The swap walk of a VNAD sample: entries `[BE16 length][length bytes]`,
   * one per signal in order, each body swapped by the signal's NAD type.
   * The source reads past the sample when an entry overruns it, indexes
   * past the signal list when there are more entries than signals, and
   * divides by zero for a type of size 0: none in each case.
   */
  function VnadSwap(p: seq<Byte>, sigs: seq<SignalLayout>): (q: Option<seq<Byte>>)
    ensures q.Some? ==> |q.value| == |p|
    decreases |p|
  {
    if |p| == 0 then Some([])
    else if |p| < 2 || sigs == [] then None
    else
      var len := ReadBE16(p, 0);
      var k := NadTypeSize(sigs[0].nadType);
      if k == 0 || 2 + len > |p| then None
      else
        match VnadSwap(p[2 + len..], sigs[1..])
        case None => None
        case Some(rest) => Some(p[..2] + SwapAll(p[2..2 + len], k) + rest)
  }

  /** The VNAD walk undoes itself: the entry lengths it reads are not swapped. */
  lemma {:induction false} VnadSwapInvolution(p: seq<Byte>, sigs: seq<SignalLayout>)
    requires VnadSwap(p, sigs).Some?
    ensures VnadSwap(VnadSwap(p, sigs).value, sigs) == Some(p)
    decreases |p|
  {
    if |p| > 0 {
      var len := ReadBE16(p, 0);
      var k := NadTypeSize(sigs[0].nadType);
      var h, b, t := p[..2], p[2..2 + len], p[2 + len..];
      assert p == h + b + t;
      VnadSwapOf(h, b, t, sigs);
      var t' := VnadSwap(t, sigs[1..]).value;
      VnadSwapOf(h, SwapAll(b, k), t', sigs);
      VnadSwapInvolution(t, sigs[1..]);
      SwapAllInvolution(b, k);
    }
  }

  /** One step of the VNAD walk on an entry `h + b` followed by `t`. */
  lemma VnadSwapOf(h: seq<Byte>, b: seq<Byte>, t: seq<Byte>, sigs: seq<SignalLayout>)
    requires |h| == 2 && |b| == ReadBE16(h, 0) && sigs != [] && NadTypeSize(sigs[0].nadType) > 0
    ensures VnadSwap(h + b + t, sigs) ==
      match VnadSwap(t, sigs[1..])
      case None => None
      case Some(r) => Some(h + SwapAll(b, NadTypeSize(sigs[0].nadType)) + r)
  {
    var p := h + b + t;
    assert p[..2] == h;
    assert ReadBE16(p, 0) == ReadBE16(h, 0);
    assert p[2..2 + |b|] == b;
    assert p[2 + |b|..] == t;
  }

  /** The swaps applied to a payload by the type's encoder and decoder (none for the other types). */
  function SwapPayload(cfg: StreamConfig, p: seq<Byte>): (q: Option<seq<Byte>>)
    ensures q.Some? ==> |q.value| == |p|
    ensures !(cfg.kind == STREAM_ANALOG || cfg.kind == STREAM_NAD || cfg.kind == STREAM_VNAD) ==> q == Some(p)
  {
    if cfg.kind == STREAM_ANALOG || cfg.kind == STREAM_NAD then SwapSignals(p, cfg.kind, cfg.signals)
    else if cfg.kind == STREAM_VNAD then VnadSwap(p, cfg.signals)
    else Some(p)
  }

  /** Swapping twice gives the payload back. */
  predicate SwapsUndo(cfg: StreamConfig, p: seq<Byte>)
  {
    match SwapPayload(cfg, p)
    case None => false
    case Some(q) => SwapPayload(cfg, q) == Some(p)
  }

  // ---------------------------------------------------------------------
  // Encoding

  /**
   * Why an encode call stops: the frame is too small (a checked throw), a
   * size does not fit its prefix (a checked throw), or the source would
   * write or read past a buffer without checking (undefined behaviour).
   */
  datatype EncodeError = TooSmall | TooBig | Undefined

  /** The outcome of encoding one sample. */
  datatype Step = Wrote(bytes: seq<Byte>, base: Timestamp) | Stopped(error: EncodeError)

  /** The sample part after the timestamp: the length prefix and the (swapped) payload. */
  function EncodeBody(cfg: StreamConfig, p: seq<Byte>, index: nat, frameSize: nat): (r: BodyResult)
    requires SupportedKind(cfg.kind)
  {
    if cfg.kind == STREAM_A429 then
      if index + |p| > frameSize then Fail(TooSmall) else Ok(p)
    else if cfg.kind == STREAM_A664 then
      if cfg.messageSize then
        if index + 2 > frameSize then Fail(TooSmall)
        else if |p| > 0xFFFF then Fail(TooBig)
        else if index + 2 + 2 > frameSize then Fail(TooSmall)
        else if index + 2 + |p| > frameSize then Fail(Undefined)
        else Ok(BE16(|p|) + p)
      else
        if index + 2 > frameSize then Fail(TooSmall)
        else if index + |p| > frameSize then Fail(Undefined)
        else Ok(p)
    else if (cfg.kind == STREAM_A825 || cfg.kind == STREAM_AUDIO) then
      if index + 1 > frameSize then Fail(TooSmall)
      else if |p| > 0xFF then Fail(TooBig)
      else if index + 1 + 2 > frameSize then Fail(TooSmall)
      else if index + 1 + |p| > frameSize then Fail(Undefined)
      else Ok([|p|] + p)
    else if cfg.kind == STREAM_SERIAL then
      if index + 2 > frameSize then Fail(TooSmall)
      else if |p| > 0xFFFF then Fail(TooBig)
      else if index + 2 + 2 > frameSize then Fail(TooSmall)
      else if index + 2 + |p| > frameSize then Fail(Undefined)
      else Ok(LE16(|p|) + p)
    else if cfg.kind == STREAM_VNAD then
      match VnadSwap(p, cfg.signals)
      case None => Fail(Undefined)
      case Some(q) =>
        if index + 2 + |q| > frameSize then Fail(TooSmall)
        else if |q| > 0xFFFF then Fail(TooBig)
        else Ok(BE16(|q|) + q)
    else
      // DISCRETE, ANALOG and NAD: swaps (if any), then an unchecked copy.
      match SwapPayload(cfg, p)
      case None => Fail(Undefined)
      case Some(q) => if index + |q| > frameSize then Fail(Undefined) else Ok(q)
  }

  datatype BodyResult = Ok(bytes: seq<Byte>) | Fail(error: EncodeError)

  /** Encodes one sample at `index`: its timestamp part, then its body. */
  function EncodeOne(cfg: StreamConfig, v: SampleValue, index: nat, frameSize: nat, base: Timestamp): (s: Step)
    requires SupportedKind(cfg.kind)
    ensures s.Wrote? ==> index + |s.bytes| <= frameSize
    ensures s.Wrote? ==> s.base == if cfg.dataTimestamp && index == 0 then v.dataTimestamp else base
  {
    match EncodeStamp(cfg.dataTimestamp, cfg.sampleOffset, v.dataTimestamp, base, index, frameSize)
    case StampTooSmall => Stopped(TooSmall)
    case StampWrite(stamp, b) =>
      match EncodeBody(cfg, v.payload, index + |stamp|, frameSize)
      case Fail(e) => Stopped(e)
      case Ok(body) =>
        EncodeBodyFits(cfg, v.payload, index + |stamp|, frameSize);
        Wrote(stamp + body, b)
  }

  lemma EncodeBodyFits(cfg: StreamConfig, p: seq<Byte>, index: nat, frameSize: nat)
    requires SupportedKind(cfg.kind) && EncodeBody(cfg, p, index, frameSize).Ok?
    ensures index + |EncodeBody(cfg, p, index, frameSize).bytes| <= frameSize
  {
  }

  /** The result of an encode call: the bytes written, the samples taken, the new base and the error. */
  datatype Run = Run(bytes: seq<Byte>, taken: nat, base: Timestamp, error: Option<EncodeError>)

  /**
   * Encodes the queued samples `q` (payload and data timestamp) from
   * `index` on. A sample is taken from the stack before it is encoded, so
   * an error still counts it as taken. An A664 stream without message
   * sizes stops after one sample.
   */
  function EncodeFrom(cfg: StreamConfig, q: seq<SampleValue>, index: nat, frameSize: nat, base: Timestamp): (r: Run)
    requires SupportedKind(cfg.kind)
    ensures r.taken <= |q| && (q != [] ==> r.taken >= 1)
    ensures index + |r.bytes| <= frameSize || r.bytes == []
    decreases |q|
  {
    if q == [] then Run([], 0, base, None)
    else
      match EncodeOne(cfg, q[0], index, frameSize, base)
      case Stopped(e) => Run([], 1, base, Some(e))
      case Wrote(bytes, b) =>
        if cfg.kind == STREAM_A664 && !cfg.messageSize then Run(bytes, 1, b, None)
        else
          var rest := EncodeFrom(cfg, q[1..], index + |bytes|, frameSize, b);
          Run(bytes + rest.bytes, 1 + rest.taken, rest.base, rest.error)
  }

  // ---------------------------------------------------------------------
  // Decoding

  /** A decoded sample: its payload and its data timestamp. */
  datatype Item = Item(payload: seq<Byte>, stamp: Timestamp)

  /**
   * How a decode call ends: the frame is consumed, the frame is malformed
   * (`return false`), the source reads past the frame, or a sample
   * consumes no byte, on which the source loops for ever.
   */
  datatype DecodeStatus = Complete | Invalid | ReadsPastEnd | Loops

  /** The outcome of decoding one sample. */
  datatype Parse = Parsed(item: Item, next: nat, base: Timestamp) | Rejected(status: DecodeStatus)

  /** The length prefix and the payload of one sample, read at `index`. */
  function DecodeBody(cfg: StreamConfig, frame: seq<Byte>, index: nat): (r: Option<(nat, nat)>)
    requires SupportedKind(cfg.kind) && index <= |frame|
    ensures r.Some? ==> index <= r.value.0 && r.value.0 + r.value.1 <= |frame| && r.value.1 <= cfg.maxSizeBytes
  {
    var rest := |frame| - index;
    if FixedSize(cfg.kind) then
      if rest < cfg.maxSizeBytes then None else Some((index, cfg.maxSizeBytes as nat))
    else
      var prefix: Option<(nat, nat)> :=
        if cfg.kind == STREAM_A664 && !cfg.messageSize then Some((index, rest))
        else if (cfg.kind == STREAM_A825 || cfg.kind == STREAM_AUDIO) then
          (if rest < 1 then None else Some((index + 1, frame[index] as nat)))
        else if cfg.kind == STREAM_SERIAL then
          (if rest < 2 then None else Some((index + 2, ReadLE16(frame, index) as nat)))
        else
          (if rest < 2 then None else Some((index + 2, ReadBE16(frame, index) as nat)));
      match prefix
      case None => None
      case Some((start, size)) =>
        if |frame| - start < size || size > cfg.maxSizeBytes then None else Some((start, size))
  }

  /**
   * Decodes one sample at `index` (below the frame size): the timestamp
   * part, the body, and the swaps back. The sample's data timestamp is the
   * one its own timestamp part gives (see `AsWrittenDecodedStamp`).
   */
  function DecodeOne(cfg: StreamConfig, frame: seq<Byte>, index: nat, base: Timestamp): (r: Parse)
    requires SupportedKind(cfg.kind) && index <= |frame|
    ensures r.Parsed? ==> index <= r.next <= |frame|
    ensures r.Rejected? ==> r.status == Invalid || r.status == ReadsPastEnd
  {
    match DecodeStamp(cfg.dataTimestamp, cfg.sampleOffset, frame, index, base)
    case StampShort => Rejected(Invalid)
    case StampPastEnd => Rejected(ReadsPastEnd)
    case StampRead(stamp, i, b) =>
      match DecodeBody(cfg, frame, i)
      case None => Rejected(Invalid)
      case Some((start, size)) =>
        match SwapPayload(cfg, frame[start..start + size])
        case None => Rejected(ReadsPastEnd)
        case Some(p) => Parsed(Item(p, stamp), start + size, b)
  }

  /** A decoded payload fits the receive-stack slot it is copied into. */
  lemma DecodedFits(cfg: StreamConfig, frame: seq<Byte>, index: nat, base: Timestamp)
    requires SupportedKind(cfg.kind) && index <= |frame| && DecodeOne(cfg, frame, index, base).Parsed?
    ensures |DecodeOne(cfg, frame, index, base).item.payload| <= cfg.maxSizeBytes
  {
  }

  /**
   * What the decoders of ed247_stream.cpp store as a received sample's
   * data timestamp: `data_timestamp`, the payload's first timestamp, for
   * every sample, instead of the precise `timestamp` just decoded.
   */
  function AsWrittenDecodedStamp(r: StampRead): (t: Timestamp)
    requires r.StampRead?
    ensures t == r.base
  {
    r.base
  }

  /**
   * A two-sample A429 payload with sample offsets: the second sample was
   * sent 5 ns after the first, which the offset word says, but the stored
   * timestamp is the first sample's.
   */
  lemma AsWrittenDropsOffset()
    ensures var frame := TimestampBytes(Timestamp(7, 0)) + [0] + BE32(5) + [0];
      var r := DecodeStamp(true, true, frame, 9, Timestamp(7, 0));
      r.StampRead? && r.stamp == Timestamp(7, 5) && AsWrittenDecodedStamp(r) == Timestamp(7, 0)
  {
    var frame := TimestampBytes(Timestamp(7, 0)) + [0] + BE32(5) + [0];
    assert frame[9..13] == BE32(5);
    ReadBE32Inverse(5, frame, 9);
  }

  /**
   * `DecodeOne` as the decoders of ed247_stream.cpp write it: the same
   * checks and the same payload, but the sample is stored with the
   * payload's first timestamp instead of the one its timestamp part gives.
   * With `AsWrittenDropsOffset` this shows the two differ on a sample sent
   * after the first.
   */
  function AsWrittenDecodeOne(cfg: StreamConfig, frame: seq<Byte>, index: nat, base: Timestamp): (r: Parse)
    requires SupportedKind(cfg.kind) && index <= |frame|
    ensures var d := DecodeOne(cfg, frame, index, base);
      (r.Rejected? <==> d.Rejected?) && (r.Rejected? ==> r.status == d.status)
    ensures var d := DecodeOne(cfg, frame, index, base);
      var s := DecodeStamp(cfg.dataTimestamp, cfg.sampleOffset, frame, index, base);
      r.Parsed? ==>
        s.StampRead? && r.item.payload == d.item.payload && r.next == d.next && r.base == d.base &&
        r.item.stamp == AsWrittenDecodedStamp(s) && d.item.stamp == s.stamp
  {
    match DecodeOne(cfg, frame, index, base)
    case Rejected(s) => Rejected(s)
    case Parsed(item, next, b) => Parsed(Item(item.payload, b), next, b)
  }

  /** The result of a decode call: the samples to push, in order, and how it ended. */
  datatype Decoding = Decoding(items: seq<Item>, status: DecodeStatus)

  /** Decodes the frame from `index` on, as the `while(frame_index < frame_size)` loop does. */
  function DecodeFrom(cfg: StreamConfig, frame: seq<Byte>, index: nat, base: Timestamp): (r: Decoding)
    requires SupportedKind(cfg.kind) && index <= |frame|
    decreases |frame| - index
  {
    if index == |frame| then Decoding([], Complete)
    else
      match DecodeOne(cfg, frame, index, base)
      case Rejected(s) => Decoding([], s)
      case Parsed(item, next, b) =>
        if next == index then Decoding([item], Loops)
        else
          var rest := DecodeFrom(cfg, frame, next, b);
          Decoding([item] + rest.items, rest.status)
  }
}
