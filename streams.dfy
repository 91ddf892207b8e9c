/**
 * A stream of ed247_stream.h and ed247_stream.cpp: its configuration, its
 * send and receive stacks, the user callbacks run after each received
 * payload, and the encode and decode loops that move samples between the
 * stacks and the frames of its channel; and the pool that creates the
 * streams of a component, one per name.
 */
module Streams {
  import opened Types
  import opened Fifo
  import opened CircularBuffer
  import opened StreamWire
  import opened Swaps

  /** A user receive callback: its context and its function, `None` for a null function pointer. */
  datatype Callback = Callback(context: int, fn: Option<int>)

  /** No callback is registered twice. */
  predicate Distinct(cbs: seq<Callback>)
  {
    forall i, j | 0 <= i < j < |cbs| :: cbs[i] != cbs[j]
  }

  /** The list with the first occurrence of `c` erased. */
  function Remove(cbs: seq<Callback>, c: Callback): (r: seq<Callback>)
    ensures c in cbs ==> |r| == |cbs| - 1
    ensures c !in cbs ==> r == cbs
    ensures forall x | x in r :: x in cbs
  {
    if cbs == [] then []
    else if cbs[0] == c then cbs[1..]
    else [cbs[0]] + Remove(cbs[1..], c)
  }

  /** Erasing at the first occurrence of `c` is `Remove`. */
  lemma {:induction false} RemoveAt(cbs: seq<Callback>, c: Callback, i: nat)
    requires i < |cbs| && cbs[i] == c && forall j | 0 <= j < i :: cbs[j] != c
    ensures Remove(cbs, c) == cbs[..i] + cbs[i + 1..]
    decreases i
  {
    if i > 0 {
      var tail := cbs[1..];
      assert cbs[0] != c;
      assert forall j | 0 <= j < i - 1 :: tail[j] != c by {
        forall j | 0 <= j < i - 1 ensures tail[j] != c {
          assert tail[j] == cbs[j + 1];
        }
      }
      RemoveAt(tail, c, i - 1);
      assert tail[..i - 1] == cbs[1..i] && tail[i..] == cbs[i + 1..];
      assert cbs[..i] == [cbs[0]] + cbs[1..i];
    }
  }

  /** The tail of a list without duplicates has none and lacks the head. */
  lemma DistinctTail(cbs: seq<Callback>)
    requires Distinct(cbs) && cbs != []
    ensures Distinct(cbs[1..]) && cbs[0] !in cbs[1..]
  {
    var tail := cbs[1..];
    forall i, j | 0 <= i < j < |tail| ensures tail[i] != tail[j] {
      assert tail[i] == cbs[i + 1] && tail[j] == cbs[j + 1];
    }
    forall i | 0 <= i < |tail| ensures tail[i] != cbs[0] {
      assert tail[i] == cbs[i + 1];
    }
  }

  /** Putting a new element in front of a list without duplicates keeps it so. */
  lemma DistinctCons(x: Callback, rest: seq<Callback>)
    requires Distinct(rest) && x !in rest
    ensures Distinct([x] + rest)
  {
    var s := [x] + rest;
    forall i, j | 0 <= i < j < |s| ensures s[i] != s[j] {
      assert s[j] == rest[j - 1];
      if i > 0 {
        assert s[i] == rest[i - 1];
      }
    }
  }

  /** Erasing a callback from a list without duplicates leaves no duplicates and no copy of it. */
  lemma {:induction false} RemoveKeepsDistinct(cbs: seq<Callback>, c: Callback)
    requires Distinct(cbs)
    ensures Distinct(Remove(cbs, c)) && c !in Remove(cbs, c)
    decreases |cbs|
  {
    if cbs != [] {
      DistinctTail(cbs);
      if cbs[0] != c {
        RemoveKeepsDistinct(cbs[1..], c);
        DistinctCons(cbs[0], Remove(cbs[1..], c));
      }
    }
  }

  /** Unregistering a callback just registered restores the list. */
  lemma RemoveRegistered(cbs: seq<Callback>, c: Callback)
    requires c !in cbs
    ensures Remove(cbs + [c], c) == cbs
  {
    assert forall j | 0 <= j < |cbs| :: (cbs + [c])[j] == cbs[j];
    RemoveAt(cbs + [c], c, |cbs|);
    assert (cbs + [c])[..|cbs|] == cbs;
  }

  /**
   * The receive-stack slot a decoded sample is committed from: the decoded
   * payload, the decoded data timestamp when data timestamps are enabled,
   * the simulation time when a handler gives one, and the transport
   * details when a header is attached; otherwise what the slot held.
   */
  function Received(slot: SampleValue, item: Item, enabled: bool, now: Option<Timestamp>, details: Option<SampleDetails>): SampleValue
  {
    SampleValue(item.payload,
                if enabled then item.stamp else slot.dataTimestamp,
                if now.Some? then now.value else slot.recvTimestamp,
                if details.Some? then details.value else slot.details)
  }

  /** A committed received sample carries what was decoded and what the receiver attached. */
  predicate Carries(v: SampleValue, item: Item, enabled: bool, now: Option<Timestamp>, details: Option<SampleDetails>)
  {
    v.payload == item.payload &&
    (enabled ==> v.dataTimestamp == item.stamp) &&
    (now.Some? ==> v.recvTimestamp == now.value) &&
    (details.Some? ==> v.details == details.value)
  }

  /** The send-stack slot `push_sample` commits: the new payload, and the given data timestamp if any. */
  function Pushed(slot: SampleValue, data: seq<Byte>, stamp: Option<Timestamp>): SampleValue
  {
    slot.(payload := data, dataTimestamp := if stamp.Some? then stamp.value else slot.dataTimestamp)
  }

  /** How an encode call ends: the number of bytes written, or the error that stopped it. */
  datatype EncodeOutcome = Encoded(size: nat) | Failed(error: EncodeError)

  /** `run` is the bytes and samples already encoded followed by `rest`. */
  ghost predicate Continues(run: Run, written: seq<Byte>, taken: nat, rest: Run)
  {
    run == Run(written + rest.bytes, taken + rest.taken, rest.base, rest.error)
  }

  /** What is left of a decode call: decoding the frame from `index` on, with data-timestamp base `base`. */
  ghost function Left(cfg: StreamConfig, frame: seq<Byte>, index: nat, base: Timestamp): Decoding
    requires SupportedKind(cfg.kind) && index <= |frame|
  {
    DecodeFrom(cfg, frame, index, base)
  }

  /**
   * What is left of an encode call: encoding the rest `q` of the queue
   * from `index` on, with data-timestamp base `base`. The loops state
   * their invariants through this name, so that the proof of each turn
   * does not unfold the encoder.
   */
  ghost function Rest(cfg: StreamConfig, q: seq<SampleValue>, index: nat, frameSize: nat, base: Timestamp): Run
    requires SupportedKind(cfg.kind)
  {
    EncodeFrom(cfg, q, index, frameSize, base)
  }

  /** An encode call that stops at the head `v` of the queue, encoded as `s`: what is left of `run`. */
  lemma EncodeStops(cfg: StreamConfig, run: Run, written: seq<Byte>, taken: nat, q: seq<SampleValue>,
                    index: nat, frameSize: nat, base: Timestamp, rest: Run, v: SampleValue, s: Step)
    requires q != [] && v == q[0] && SupportedKind(cfg.kind) && rest == Rest(cfg, q, index, frameSize, base) && Continues(run, written, taken, rest)
    requires s == EncodeOne(cfg, v, index, frameSize, base)
    ensures s.Stopped? ==> run == Run(written, taken + 1, base, Some(s.error))
    ensures s.Wrote? && cfg.kind == STREAM_A664 && !cfg.messageSize ==> run == Run(written + s.bytes, taken + 1, s.base, None)
  {
  }

  /** An encode call that goes on past the head `v` of the queue, encoded as `s`. */
  lemma EncodeGoesOn(cfg: StreamConfig, run: Run, written: seq<Byte>, taken: nat, q: seq<SampleValue>,
                     index: nat, frameSize: nat, base: Timestamp, rest: Run, v: SampleValue, s: Step, rest': Run)
    requires q != [] && v == q[0] && SupportedKind(cfg.kind) && rest == Rest(cfg, q, index, frameSize, base) && Continues(run, written, taken, rest)
    requires s == EncodeOne(cfg, v, index, frameSize, base) && s.Wrote? && !(cfg.kind == STREAM_A664 && !cfg.messageSize)
    requires SupportedKind(cfg.kind) && rest' == Rest(cfg, q[1..], index + |s.bytes|, frameSize, s.base)
    ensures Continues(run, written + s.bytes, taken + 1, rest')
  {
    assert written + (s.bytes + rest'.bytes) == (written + s.bytes) + rest'.bytes;
  }

  class Stream {
    const cfg: StreamConfig
    const sendStack: CircularStreamSampleBuffer
    const recvStack: CircularStreamSampleBuffer
    /** The data timestamp of the first sample of the last payload encoded. */
    var dataTimestampBase: Timestamp
    var callbacks: seq<Callback>

    /** Two distinct stacks of the configured depth and sample size. */
    ghost predicate Valid()
      reads sendStack, recvStack
    {
      sendStack != recvStack && SupportedKind(cfg.kind) &&
      sendStack.Valid() && recvStack.Valid() &&
      sendStack.maxNumber == cfg.maxNumber && recvStack.maxNumber == cfg.maxNumber &&
      sendStack.maxSizeBytes == cfg.maxSizeBytes && recvStack.maxSizeBytes == cfg.maxSizeBytes
    }

    /** `Stream<E>(configuration)`: the stacks exist but are not allocated yet. */
    constructor(config: StreamConfig)
      requires SupportedKind(config.kind)
      ensures cfg == config && callbacks == [] && sendStack != recvStack
      ensures fresh(sendStack) && fresh(recvStack)
    {
      cfg := config;
      sendStack := new CircularStreamSampleBuffer();
      recvStack := new CircularStreamSampleBuffer();
      dataTimestampBase := DEFAULT_TIMESTAMP;
      callbacks := [];
    }

    /**
     * `allocate_stacks`: both stacks get their slots, then a direction that
     * is neither IN, OUT nor INOUT is refused (a throw in the source).
     */
    method AllocateStacks() returns (ok: bool)
      requires sendStack != recvStack && SupportedKind(cfg.kind)
      modifies sendStack, recvStack
      ensures Valid() && sendStack.Queue() == [] && recvStack.Queue() == []
      ensures ok <==> cfg.direction != DIR_INVALID
    {
      recvStack.Allocate(cfg.maxSizeBytes, cfg.maxNumber);
      sendStack.Allocate(cfg.maxSizeBytes, cfg.maxNumber);
      ok := !(cfg.direction <= DIR_INVALID || cfg.direction > DIR_INOUT);
    }

    /**
     * `push_sample`: refused on a stream without OUT or for a sample above
     * the maximum size; otherwise the sample (with its data timestamp, when
     * one is given) is pushed onto the send stack, dropping the oldest when
     * the stack was full.
     */
    method PushSample(data: seq<Byte>, stamp: Option<Timestamp>) returns (ok: bool, full: bool)
      requires Valid()
      modifies sendStack
      ensures Valid()
      ensures ok <==> HasOut(cfg.direction) && |data| <= cfg.maxSizeBytes
      ensures !ok ==> unchanged(sendStack) && !full
      ensures ok ==>
        sendStack.Queue() == BoundedPush(old(sendStack.Queue()), Pushed(old(sendStack.NextWrite()), data, stamp), cfg.maxNumber)
      ensures ok ==> (full <==> |sendStack.Queue()| == cfg.maxNumber)
    {
      if !HasOut(cfg.direction) || |data| > cfg.maxSizeBytes {
        return false, false;
      }
      var slot := sendStack.NextWrite();
      sendStack.StoreNext(Pushed(slot, data, stamp));
      full := sendStack.Increment();
      ok := true;
    }

    /**
     * `pop_sample`: nothing on a stream without IN; otherwise the oldest
     * received sample, with `empty` telling whether none is left. On an
     * empty stack the source hands back the slot at the read index and
     * reports empty.
     */
    method PopSample() returns (v: Option<SampleValue>, empty: bool)
      requires Valid()
      modifies recvStack
      ensures Valid()
      ensures !HasIn(cfg.direction) ==> v.None? && recvStack.Queue() == old(recvStack.Queue())
      ensures HasIn(cfg.direction) && old(recvStack.Queue()) == [] ==> v.Some? && empty && recvStack.Queue() == []
      ensures HasIn(cfg.direction) && old(recvStack.Queue()) != [] ==>
        v == Some(old(recvStack.Queue())[0]) && recvStack.Queue() == old(recvStack.Queue())[1..] &&
        (empty <==> recvStack.Queue() == [])
    {
      if !HasIn(cfg.direction) {
        // The source leaves its `empty` out-parameter unwritten here; the model answers false.
        return None, false;
      }
      var s;
      s, empty := recvStack.PopFront();
      v := Some(s);
    }

    /** `std::find_if` over the callbacks: the first index holding `c`, or the length. */
    method FindCallback(c: Callback) returns (i: nat)
      ensures i <= |callbacks|
      ensures i < |callbacks| ==> callbacks[i] == c
      ensures forall j | 0 <= j < i :: callbacks[j] != c
    {
      i := 0;
      while i < |callbacks| && callbacks[i] != c
        invariant i <= |callbacks|
        invariant forall j | 0 <= j < i :: callbacks[j] != c
      {
        i := i + 1;
      }
    }

    /** `register_callback`: a pair already registered is refused; otherwise it is appended. */
    method RegisterCallback(c: Callback) returns (s: Status)
      modifies this`callbacks
      ensures c in old(callbacks) ==> s == Failure && callbacks == old(callbacks)
      ensures c !in old(callbacks) ==> s == Success && callbacks == old(callbacks) + [c]
      ensures Distinct(old(callbacks)) ==> Distinct(callbacks)
    {
      var i := FindCallback(c);
      if i < |callbacks| {
        return Failure;
      }
      callbacks := callbacks + [c];
      s := Success;
    }

    /** `unregister_callback`: a pair not registered is refused; otherwise its first occurrence is erased. */
    method UnregisterCallback(c: Callback) returns (s: Status)
      modifies this`callbacks
      ensures s == (if c in old(callbacks) then Success else Failure)
      ensures callbacks == Remove(old(callbacks), c)
    {
      var i := FindCallback(c);
      if i == |callbacks| {
        return Failure;
      }
      RemoveAt(callbacks, c, i);
      callbacks := callbacks[..i] + callbacks[i + 1..];
      s := Success;
    }

    /**
     * `run_callbacks`: calls the callbacks in order; `results[i]` is what
     * the i-th one returns. Fails at the first null callback or the first
     * result other than SUCCESS.
     */
    method RunCallbacks(results: seq<Status>) returns (ok: bool)
      requires |results| == |callbacks|
      ensures ok <==> forall j | 0 <= j < |callbacks| :: callbacks[j].fn.Some? && results[j] == Success
    {
      var i := 0;
      while i < |callbacks|
        invariant i <= |callbacks|
        invariant forall j | 0 <= j < i :: callbacks[j].fn.Some? && results[j] == Success
      {
        if callbacks[i].fn.None? || results[i] != Success {
          return false;
        }
        i := i + 1;
      }
      ok := true;
    }

    /**
     * `encode(frame + at, frameSize)`: pops the queued samples one by one
     * and writes each (timestamp part, then body) into the frame, until
     * the stack is empty (after one sample for A664 without message
     * sizes) or an error stops the call.
     */
    method Encode(frame: array<Byte>, at: nat, frameSize: nat) returns (out: EncodeOutcome)
      requires Valid() && at + frameSize <= frame.Length
      modifies this`dataTimestampBase, sendStack, frame
      ensures Valid()
      ensures var r := EncodeFrom(cfg, old(sendStack.Queue()), 0, frameSize, old(dataTimestampBase));
        sendStack.Queue() == old(sendStack.Queue())[r.taken..] &&
        at + |r.bytes| <= frame.Length &&
        frame[..] == old(frame[..at]) + r.bytes + old(frame[at + |r.bytes|..]) &&
        out == (if r.error.None? then Encoded(|r.bytes|) else Failed(r.error.value)) &&
        (r.error.None? ==> dataTimestampBase == r.base)
    {
      ghost var q0 := sendStack.Queue();
      ghost var f0 := frame[..];
      ghost var run := EncodeFrom(cfg, q0, 0, frameSize, dataTimestampBase);
      out := EncodeLoop(frame, at, frameSize, f0, q0, run);
    }

    /** The loop of `Encode`, against the result `run` of encoding the whole queue `q0`. */
    method EncodeLoop(frame: array<Byte>, at: nat, frameSize: nat, ghost f0: seq<Byte>, ghost q0: seq<SampleValue>, ghost run: Run)
      returns (out: EncodeOutcome)
      requires Valid() && at + frameSize <= frame.Length && f0 == frame[..]
      requires sendStack.Queue() == q0 && run == Rest(cfg, q0, 0, frameSize, dataTimestampBase)
      modifies this`dataTimestampBase, sendStack, frame
      ensures Valid() && run.taken <= |q0| && sendStack.Queue() == q0[run.taken..]
      ensures at + |run.bytes| <= frame.Length && frame[..] == f0[..at] + run.bytes + f0[at + |run.bytes|..]
      ensures out == (if run.error.None? then Encoded(|run.bytes|) else Failed(run.error.value))
      ensures run.error.None? ==> dataTimestampBase == run.base
    {
      var b := dataTimestampBase;
      ghost var taken := 0;
      ghost var written: seq<Byte> := [];
      ghost var rest := run;
      var index := 0;
      var empty := sendStack.size == 0;
      assert q0[0..] == q0;
      while !empty
        invariant Valid() && taken <= |q0| && index == |written| && index <= frameSize
        invariant sendStack.Queue() == q0[taken..] && (empty <==> q0[taken..] == [])
        invariant frame[..] == f0[..at] + written + f0[at + index..]
        invariant rest == Rest(cfg, q0[taken..], index, frameSize, b) && Continues(run, written, taken, rest)
        invariant dataTimestampBase == b
        decreases |q0| - taken
      {
        var step;
        step, empty, index, b, written, taken, rest := EncodeTurn(frame, at, frameSize, f0, q0, run, index, b, written, taken, rest);
        if step.Stopped? {
          return Failed(step.error);
        }
        if cfg.kind == STREAM_A664 && !cfg.messageSize {
          break;
        }
      }
      out := Encoded(index);
    }

    /**
     * One turn of the encode loop: pops the oldest sample, encodes it at
     * `index` and writes the bytes into the frame; the new state of the
     * loop and what is then left of the call's result `run`.
     */
    method EncodeTurn(frame: array<Byte>, at: nat, frameSize: nat, ghost f0: seq<Byte>, ghost q0: seq<SampleValue>,
                      ghost run: Run, index: nat, b: Timestamp, ghost written: seq<Byte>, ghost taken: nat, ghost rest: Run)
      returns (step: Step, empty: bool, index': nat, b': Timestamp, ghost written': seq<Byte>, ghost taken': nat, ghost rest': Run)
      requires Valid() && at + frameSize <= frame.Length && |f0| == frame.Length
      requires index == |written| && index <= frameSize && frame[..] == f0[..at] + written + f0[at + index..]
      requires taken < |q0| && sendStack.Queue() == q0[taken..] && dataTimestampBase == b
      requires rest == Rest(cfg, q0[taken..], index, frameSize, b) && Continues(run, written, taken, rest)
      modifies this`dataTimestampBase, sendStack, frame
      ensures Valid() && taken' == taken + 1 && index' == |written'| && index' <= frameSize
      ensures sendStack.Queue() == q0[taken'..] && (empty <==> q0[taken'..] == [])
      ensures frame[..] == f0[..at] + written' + f0[at + index'..]
      ensures dataTimestampBase == b'
      ensures step.Stopped? ==> run == Run(written', taken', b', Some(step.error))
      ensures step.Wrote? && cfg.kind == STREAM_A664 && !cfg.messageSize ==> run == Run(written', taken', b', None)
      ensures step.Wrote? && !(cfg.kind == STREAM_A664 && !cfg.messageSize) ==>
        rest' == Rest(cfg, q0[taken'..], index', frameSize, b') && Continues(run, written', taken', rest')
    {
      ghost var q := q0[taken..];
      assert q[1..] == q0[taken + 1..];
      var v;
      v, empty := sendStack.PopFront();
      step := EncodeOne(cfg, v, index, frameSize, b);
      EncodeStops(cfg, run, written, taken, q, index, frameSize, b, rest, v, step);
      taken' := taken + 1;
      if step.Stopped? {
        index', b', written', rest' := index, b, written, rest;
      } else {
        index', b', written' := index + |step.bytes|, step.base, written + step.bytes;
        rest' := Rest(cfg, q0[taken'..], index', frameSize, b');
        WriteNext(frame, at, index, f0, written, step.bytes);
        dataTimestampBase := b';
        if !(cfg.kind == STREAM_A664 && !cfg.messageSize) {
          EncodeGoesOn(cfg, run, written, taken, q, index, frameSize, b, rest, v, step, rest');
        }
      }
    }

    /**
     * Copies a decoded sample into the next slot of the receive stack and
     * pushes it, as the decoders do: `v` is the sample committed.
     */
    method Commit(item: Item, now: Option<Timestamp>, details: Option<SampleDetails>,
                  ghost q0: seq<SampleValue>, ghost pushed: seq<SampleValue>)
      returns (ghost v: SampleValue)
      requires Valid() && |item.payload| <= cfg.maxSizeBytes && |q0| <= cfg.maxNumber
      requires recvStack.Queue() == PushAll(q0, pushed, cfg.maxNumber)
      modifies recvStack
      ensures Valid() && Carries(v, item, cfg.dataTimestamp, now, details)
      ensures recvStack.Queue() == PushAll(q0, pushed + [v], cfg.maxNumber)
    {
      var slot := recvStack.NextWrite();
      var w := Received(slot, item, cfg.dataTimestamp, now, details);
      recvStack.StoreNext(w);
      var _ := recvStack.Increment();
      PushAllSnoc(q0, pushed, w, cfg.maxNumber);
      v := w;
    }

    /** Writes `bytes` into `frame` just past the `written` part that follows `at`. */
    static method WriteNext(frame: array<Byte>, at: nat, index: nat, ghost f0: seq<Byte>, ghost written: seq<Byte>, bytes: seq<Byte>)
      requires |f0| == frame.Length && index == |written| && at + index + |bytes| <= frame.Length
      requires frame[..] == f0[..at] + written + f0[at + |written|..]
      modifies frame
      ensures frame[..] == f0[..at] + (written + bytes) + f0[at + |written + bytes|..]
    {
      ghost var cur := frame[..];
      WriteRange(frame, at + index, bytes);
      WriteAfter(f0, at, written, bytes, cur, frame[..]);
    }

    /**
     * `decode(frame, frameSize, header)`: decodes the samples of a payload
     * one by one and commits each to the receive stack, then runs the
     * callbacks. `base` is the decoder's remembered data timestamp, `now`
     * the simulation time (none without a handler), `details` what the
     * attached header gives (none without a header) and `results` what the
     * callbacks return. On a sample that consumes no byte the source loops
     * for ever; the model stops after committing it once.
     */
    method Decode(frame: seq<Byte>, base: Timestamp, now: Option<Timestamp>, details: Option<SampleDetails>,
                  results: seq<Status>)
      returns (status: DecodeStatus, ok: bool, ghost pushed: seq<SampleValue>)
      requires Valid() && |results| == |callbacks|
      modifies recvStack
      ensures Valid()
      ensures var d := DecodeFrom(cfg, frame, 0, base);
        status == d.status && |pushed| == |d.items| &&
        (forall i | 0 <= i < |pushed| :: Carries(pushed[i], d.items[i], cfg.dataTimestamp, now, details)) &&
        recvStack.Queue() == PushAll(old(recvStack.Queue()), pushed, cfg.maxNumber)
      ensures ok <==> status == Complete && forall j | 0 <= j < |callbacks| :: callbacks[j].fn.Some? && results[j] == Success
    {
      ghost var q0 := recvStack.Queue();
      ghost var d0 := DecodeFrom(cfg, frame, 0, base);
      ghost var items: seq<Item> := [];
      ghost var left := d0;
      pushed := [];
      var index := 0;
      var b := base;
      while index < |frame|
        invariant Valid() && index <= |frame| && |q0| <= cfg.maxNumber
        invariant left == Left(cfg, frame, index, b) && d0 == Decoding(items + left.items, left.status)
        invariant |pushed| == |items| && forall i | 0 <= i < |pushed| :: Carries(pushed[i], items[i], cfg.dataTimestamp, now, details)
        invariant recvStack.Queue() == PushAll(q0, pushed, cfg.maxNumber)
        decreases |frame| - index
      {
        var stop;
        stop, index, b, items, pushed, left := DecodeTurn(frame, now, details, q0, d0, index, b, items, pushed, left);
        if stop.Some? {
          status, ok := stop.value, false;
          return;
        }
      }
      assert items + [] == items;
      status := Complete;
      ok := RunCallbacks(results);
    }

    /**
     * One turn of the decode loop: decodes the sample at `index` and
     * commits it to the receive stack; the new state of the loop, and the
     * status when the call ends here.
     */
    method DecodeTurn(frame: seq<Byte>, now: Option<Timestamp>, details: Option<SampleDetails>,
                      ghost q0: seq<SampleValue>, ghost d0: Decoding, index: nat, b: Timestamp,
                      ghost items: seq<Item>, ghost pushed: seq<SampleValue>, ghost left: Decoding)
      returns (stop: Option<DecodeStatus>, index': nat, b': Timestamp,
               ghost items': seq<Item>, ghost pushed': seq<SampleValue>, ghost left': Decoding)
      requires Valid() && index < |frame| && |q0| <= cfg.maxNumber
      requires left == Left(cfg, frame, index, b) && d0 == Decoding(items + left.items, left.status)
      requires |pushed| == |items| && forall i | 0 <= i < |pushed| :: Carries(pushed[i], items[i], cfg.dataTimestamp, now, details)
      requires recvStack.Queue() == PushAll(q0, pushed, cfg.maxNumber)
      modifies recvStack
      ensures Valid() && index' <= |frame| && (stop.None? ==> index < index')
      ensures |pushed'| == |items'| && forall i | 0 <= i < |pushed'| :: Carries(pushed'[i], items'[i], cfg.dataTimestamp, now, details)
      ensures recvStack.Queue() == PushAll(q0, pushed', cfg.maxNumber)
      ensures stop.Some? ==> d0 == Decoding(items', stop.value) && stop.value != Complete
      ensures stop.None? ==> left' == Left(cfg, frame, index', b') && d0 == Decoding(items' + left'.items, left'.status)
    {
      var r := DecodeOne(cfg, frame, index, b);
      index', b', items', pushed', left' := index, b, items, pushed, left;
      if r.Rejected? {
        assert items + [] == items;
        return Some(r.status), index', b', items', pushed', left';
      }
      DecodedFits(cfg, frame, index, b);
      ghost var v := Commit(r.item, now, details, q0, pushed);
      items', pushed' := items + [r.item], pushed + [v];
      if r.next == index {
        return Some(Loops), index', b', items', pushed', left';
      }
      index', b' := r.next, r.base;
      left' := Left(cfg, frame, index', b');
      assert items + ([r.item] + left'.items) == items' + left'.items;
      stop := None;
    }
  }

  /** `BaseStream::Pool`: the streams created so far, at most one per name. */
  class StreamPool {
    var streams: seq<Stream>

    function Names(): (ns: seq<string>)
      reads this
      ensures |ns| == |streams| && forall i | 0 <= i < |streams| :: ns[i] == streams[i].cfg.name
    {
      var ss := streams;
      seq(|ss|, i requires 0 <= i < |ss| => ss[i].cfg.name)
    }

    ghost predicate Valid()
      reads this
    {
      forall i, j | 0 <= i < j < |streams| :: streams[i].cfg.name != streams[j].cfg.name
    }

    constructor()
      ensures Valid() && streams == []
    {
      streams := [];
    }

    /** The lookup both `get` functions make: the first stream with that name, or the count. */
    method IndexOf(name: string) returns (i: nat)
      ensures i <= |streams| && (i < |streams| <==> name in Names())
      ensures i < |streams| ==> streams[i].cfg.name == name
    {
      i := 0;
      while i < |streams| && streams[i].cfg.name != name
        invariant i <= |streams|
        invariant forall j | 0 <= j < i :: streams[j].cfg.name != name
      {
        i := i + 1;
      }
    }

    /** `get(name)`: the stream with that name, or null. */
    method GetByName(name: string) returns (s: Stream?)
      ensures s == null <==> name !in Names()
      ensures s != null ==> s in streams && s.cfg.name == name
    {
      var i := IndexOf(name);
      s := if i < |streams| then streams[i] else null;
    }

    /**
     * `get(configuration)`: a name already in the pool is refused, and so
     * is a type without a stream implementation or a direction that is
     * neither IN, OUT nor INOUT (throws in the source); otherwise a new
     * stream with allocated, empty stacks is appended.
     */
    method Get(config: StreamConfig) returns (s: Stream?)
      requires Valid()
      modifies this
      ensures Valid()
      ensures s == null <==> config.name in old(Names()) || !SupportedKind(config.kind) || config.direction == DIR_INVALID
      ensures s == null ==> streams == old(streams)
      ensures s != null ==> fresh(s) && s.cfg == config && s.Valid() && s.callbacks == [] && streams == old(streams) + [s]
      ensures s != null ==> s.sendStack.Queue() == [] && s.recvStack.Queue() == []
    {
      var i := IndexOf(config.name);
      if i < |streams| || !SupportedKind(config.kind) {
        return null;
      }
      s := new Stream(config);
      var ok := s.AllocateStacks();
      if !ok {
        return null;
      }
      streams := streams + [s];
    }
  }
}
