/**
 * Preallocated sample storage (ed247_sample.h / ed247_sample.cpp):
 * `Sample`, a bounded byte buffer filled by copy; `StreamSample`, a sample
 * with its data timestamp, receive timestamp and frame details; and
 * `StreamSampleRingBuffer`, a fixed ring of stream samples that drops its
 * oldest entry when a push finds it full.
 */
module Samples {
  import opened Types
  import opened Fifo

  /** `ed247::Sample`. A null `data` is the null pointer of a sample not yet allocated. */
  class Sample {
    var data: array?<Byte>
    var size: nat
    var capacity: nat

    /** A null buffer has no capacity and no bytes; otherwise the buffer holds exactly `capacity` bytes. */
    ghost predicate Valid()
      reads this
    {
      (data == null ==> size == 0 && capacity == 0) &&
      (data != null ==> data.Length == capacity && size <= capacity)
    }

    /** The bytes of the current payload. */
    function Payload(): seq<Byte>
      reads this, data
      requires Valid()
    {
      if data == null then [] else data[..size]
    }

    /** The empty constructor: no buffer until `Allocate` is called. */
    constructor Empty()
      ensures Valid() && data == null && size == 0 && capacity == 0
    {
      data := null;
      size := 0;
      capacity := 0;
    }

    /** The sized constructor: a zero-filled buffer of `cap` bytes holding an empty payload. */
    constructor (cap: U32)
      ensures Valid() && fresh(data) && capacity == cap && size == 0
    {
      data := new Byte[cap](_ => 0);
      size := 0;
      capacity := cap;
    }

    /** The move constructor: takes the buffer of `other` and leaves it null, empty and without capacity. */
    constructor Move(other: Sample)
      modifies other
      ensures data == old(other.data) && size == old(other.size) && capacity == old(other.capacity)
      ensures other.data == null && other.size == 0 && other.capacity == 0
    {
      data := other.data;
      size := other.size;
      capacity := other.capacity;
      other.data := null;
      other.size := 0;
      other.capacity := 0;
    }

    /** True exactly when the payload holds no byte. */
    function IsEmpty(): (r: bool)
      reads this, data
      requires Valid()
      ensures r <==> Payload() == []
    {
      size == 0
    }

    /**
     * Fills the payload with `src`. Refuses, changing nothing, when `src` is
     * longer than the capacity; otherwise the payload becomes `src` and the
     * bytes past it keep their old values.
     */
    method Copy(src: seq<Byte>) returns (ok: bool)
      requires Valid()
      modifies this, data
      ensures Valid() && data == old(data) && capacity == old(capacity)
      ensures ok <==> |src| <= capacity
      ensures ok ==> Payload() == src
      ensures ok && data != null ==> data[|src|..] == old(data[|src|..])
      ensures !ok ==> size == old(size) && (data != null ==> data[..] == old(data[..]))
    {
      if |src| > capacity {
        return false;
      }
      size := |src|;
      if data != null {
        var buf := data;
        var i := 0;
        while i < |src|
          invariant data == buf && size == |src| && capacity == old(capacity)
          invariant 0 <= i <= |src|
          invariant buf[..i] == src[..i]
          invariant buf[i..] == old(buf[i..])
        {
          buf[i] := src[i];
          i := i + 1;
        }
      }
      return true;
    }

    /**
     * `allocate`: the capacity field is assigned first, then the call fails
     * on a sample that already has a buffer or on a zero capacity; otherwise
     * the buffer is a fresh zero-filled array and the payload is empty.
     */
    method Allocate(cap: U32) returns (ok: bool)
      requires Valid()
      modifies this
      ensures capacity == cap
      ensures ok <==> old(data) == null && cap > 0
      ensures ok ==> Valid() && fresh(data) && size == 0 && data[..] == seq(cap, _ => 0)
      ensures !ok ==> data == old(data) && size == old(size)
    {
      capacity := cap;
      if data != null || size != 0 {
        return false;
      }
      if cap == 0 {
        return false;
      }
      data := new Byte[cap](_ => 0);
      size := 0;
      return true;
    }

    /** Direct size update; the caller keeps it within the capacity. */
    method SetSize(n: nat)
      requires Valid() && n <= capacity
      modifies this
      ensures Valid() && size == n && data == old(data) && capacity == old(capacity)
    {
      size := n;
    }

    /** Empties the payload without touching the buffer. */
    method Reset()
      requires Valid()
      modifies this
      ensures Valid() && size == 0 && Payload() == [] && data == old(data) && capacity == old(capacity)
    {
      size := 0;
    }
  }

  /** `ed247::StreamSample`: a sample plus its timestamps and frame details. */
  class StreamSample {
    const sample: Sample
    var dataTimestamp: Timestamp
    var recvTimestamp: Timestamp
    var frameDetails: SampleDetails

    ghost predicate Valid()
      reads this, sample
    {
      sample.Valid()
    }

    /** A new stream sample: an empty payload of `cap` bytes, zero timestamps, default frame details. */
    constructor (cap: U32)
      ensures Valid() && fresh(sample) && fresh(sample.data)
      ensures sample.capacity == cap && sample.size == 0
      ensures dataTimestamp == DEFAULT_TIMESTAMP && recvTimestamp == DEFAULT_TIMESTAMP
      ensures frameDetails == DEFAULT_DETAILS
    {
      sample := new Sample(cap);
      dataTimestamp := DEFAULT_TIMESTAMP;
      recvTimestamp := DEFAULT_TIMESTAMP;
      frameDetails := DEFAULT_DETAILS;
    }

    method SetDataTimestamp(t: Timestamp)
      modifies this
      ensures dataTimestamp == t
      ensures recvTimestamp == old(recvTimestamp) && frameDetails == old(frameDetails)
    {
      dataTimestamp := t;
    }

    method SetRecvTimestamp(t: Timestamp)
      modifies this
      ensures recvTimestamp == t
      ensures dataTimestamp == old(dataTimestamp) && frameDetails == old(frameDetails)
    {
      recvTimestamp := t;
    }

    method SetFrameDetails(d: SampleDetails)
      modifies this
      ensures frameDetails == d
      ensures dataTimestamp == old(dataTimestamp) && recvTimestamp == old(recvTimestamp)
    {
      frameDetails := d;
    }

    /**
     * Copies payload and metadata of `other`. When the payload does not fit,
     * returns false before any metadata is touched.
     */
    method CopyFrom(other: StreamSample) returns (ok: bool)
      requires Valid() && other.Valid()
      modifies this, sample, sample.data
      ensures Valid() && sample.capacity == old(sample.capacity)
      ensures ok <==> |old(other.sample.Payload())| <= sample.capacity
      ensures ok ==> sample.Payload() == old(other.sample.Payload())
      ensures ok ==> dataTimestamp == old(other.dataTimestamp) && recvTimestamp == old(other.recvTimestamp)
      ensures ok ==> frameDetails == old(other.frameDetails)
      ensures !ok ==> sample.size == old(sample.size)
      ensures !ok ==> dataTimestamp == old(dataTimestamp) && recvTimestamp == old(recvTimestamp)
      ensures !ok ==> frameDetails == old(frameDetails)
    {
      var src := other.sample.Payload();
      var d, r, f := other.dataTimestamp, other.recvTimestamp, other.frameDetails;
      ok := sample.Copy(src);
      if !ok {
        return;
      }
      dataTimestamp := d;
      recvTimestamp := r;
      frameDetails := f;
    }
  }

  /** Read index, write index and fill level of a ring of `n` slots. */
  datatype Cursor = Cursor(read: nat, write: nat, size: nat)

  /** `x mod n` for an index sum below `2 * n`: the wrap-around of the ring arithmetic. */
  function Wrap(x: nat, n: nat): nat
    requires n > 0 && x < 2 * n
  {
    if x < n then x else x - n
  }

  lemma WrapIsMod(x: nat, n: nat)
    requires n > 0 && x < 2 * n
    ensures x % n == Wrap(x, n)
  {
  }

  /** The ring invariant: indices in range, the write index `size` slots after the read index. */
  ghost predicate CursorOk(c: Cursor, n: nat)
  {
    n > 0 && c.read < n && c.write < n && c.size <= n && c.write == Wrap(c.read + c.size, n)
  }

  /** The slots holding queued samples, oldest first. */
  function Slots(c: Cursor, n: nat): (s: seq<int>)
    requires CursorOk(c, n)
    ensures |s| == c.size
    ensures forall i | 0 <= i < c.size :: s[i] == Wrap(c.read + i, n)
  {
    seq(c.size, i requires 0 <= i < c.size => Wrap(c.read + i, n))
  }

  /**
   * `push_back` on the indices: the write index advances; a full ring drops
   * its oldest slot; the slot written is appended to the queue.
   */
  function PushCursor(c: Cursor, n: nat): (r: Cursor)
    requires CursorOk(c, n)
    ensures CursorOk(r, n)
    ensures r.size == if c.size < n then c.size + 1 else n
  {
    var r := Cursor(if c.size >= n then Wrap(c.read + 1, n) else c.read,
                    Wrap(c.write + 1, n),
                    if c.size >= n then c.size else c.size + 1);
    PushSlots(c, r, n);
    r
  }

  lemma PushSlots(c: Cursor, r: Cursor, n: nat)
    requires CursorOk(c, n)
    requires r == Cursor(if c.size >= n then Wrap(c.read + 1, n) else c.read,
                         Wrap(c.write + 1, n),
                         if c.size >= n then c.size else c.size + 1)
    ensures CursorOk(r, n)
    ensures Slots(r, n) == (if c.size < n then Slots(c, n) else Slots(c, n)[1..]) + [c.write]
  {
    assert CursorOk(r, n);
    var expected := (if c.size < n then Slots(c, n) else Slots(c, n)[1..]) + [c.write];
    assert |Slots(r, n)| == |expected|;
    forall i | 0 <= i < r.size
      ensures Slots(r, n)[i] == expected[i]
    {
    }
  }

  /** A push moves the queued slots exactly as a bounded FIFO push of the written slot. */
  lemma PushIsBoundedPush(c: Cursor, n: nat)
    requires CursorOk(c, n)
    ensures Slots(PushCursor(c, n), n) == BoundedPush(Slots(c, n), c.write, n)
  {
  }

  /** `pop_front` on the indices: nothing moves on an empty ring; otherwise the oldest slot leaves the queue. */
  function PopCursor(c: Cursor, n: nat): (r: Cursor)
    requires CursorOk(c, n)
    ensures CursorOk(r, n)
    ensures Slots(r, n) == if c.size == 0 then Slots(c, n) else Slots(c, n)[1..]
    ensures c.size > 0 ==> Slots(c, n)[0] == c.read
  {
    if c.size == 0 then c
    else
      var r := Cursor(Wrap(c.read + 1, n), c.write, c.size - 1);
      assert CursorOk(r, n);
      assert Slots(r, n) == Slots(c, n)[1..];
      r
  }

  /** The slots a sequence of pops returns, until the ring is empty. */
  function PopAll(c: Cursor, n: nat): seq<int>
    requires CursorOk(c, n)
    decreases c.size
  {
    if c.size == 0 then [] else [c.read] + PopAll(PopCursor(c, n), n)
  }

  /** Popping until empty returns exactly the queued slots, oldest first. */
  lemma {:induction false} PopAllIsSlots(c: Cursor, n: nat)
    requires CursorOk(c, n)
    ensures PopAll(c, n) == Slots(c, n)
    decreases c.size
  {
    if c.size > 0 {
      PopAllIsSlots(PopCursor(c, n), n);
    }
  }

  /** The indices after `k` pushes into an empty ring of `n` slots. */
  function Pushes(k: nat, n: nat): (c: Cursor)
    requires n > 0
    ensures CursorOk(c, n)
  {
    if k == 0 then Cursor(0, 0, 0) else PushCursor(Pushes(k - 1, n), n)
  }

  /** The slots handed out by pushes number `lo` to `hi - 1`, in push order. */
  function PushedSlots(lo: nat, hi: nat, n: nat): (s: seq<int>)
    requires n > 0 && lo <= hi
    ensures |s| == hi - lo
    decreases hi - lo
  {
    if lo == hi then [] else PushedSlots(lo, hi - 1, n) + [Pushes(hi - 1, n).write]
  }

  lemma {:induction false} PushedSlotsTail(lo: nat, hi: nat, n: nat)
    requires n > 0 && lo < hi
    ensures PushedSlots(lo, hi, n)[1..] == PushedSlots(lo + 1, hi, n)
    decreases hi - lo
  {
    if lo + 1 < hi {
      PushedSlotsTail(lo, hi - 1, n);
      assert PushedSlots(lo, hi, n)[1..] == PushedSlots(lo, hi - 1, n)[1..] + [Pushes(hi - 1, n).write];
    }
  }

  /**
   * FIFO under overflow: after `k` pushes into an empty ring of `n` slots,
   * popping returns the slots handed out by the last min(k, n) pushes, oldest first.
   */
  lemma {:induction false} FifoUnderOverflow(k: nat, n: nat)
    requires n > 0
    ensures PopAll(Pushes(k, n), n) == PushedSlots(k - (if k < n then k else n), k, n)
  {
    PushesSlots(k, n);
    PopAllIsSlots(Pushes(k, n), n);
  }

  lemma PushesSlots(k: nat, n: nat)
    requires n > 0
    ensures Slots(Pushes(k, n), n) == PushedSlots(k - (if k < n then k else n), k, n)
  {
    var lo := k - (if k < n then k else n);
    if k < n {
      assert lo == 0;
      PushesSlotsBelow(k, n);
    } else {
      assert lo == k - n;
      PushesSlotsAbove(k, n);
    }
  }

  /** Before the ring is full, every slot handed out is still queued. */
  lemma {:induction false} PushesSlotsBelow(k: nat, n: nat)
    requires 0 < n && k <= n
    ensures Slots(Pushes(k, n), n) == PushedSlots(0, k, n)
  {
    if k > 0 {
      var c := Pushes(k - 1, n);
      PushesSlotsBelow(k - 1, n);
      PushesSize(k - 1, n);
      PushFreeRing(c, n, PushedSlots(0, k - 1, n));
    }
  }

  /** Once the ring is full, the last `n` slots handed out are queued. */
  lemma {:induction false} PushesSlotsAbove(k: nat, n: nat)
    requires 0 < n <= k
    ensures Slots(Pushes(k, n), n) == PushedSlots(k - n, k, n)
  {
    if k == n {
      PushesSlotsBelow(k, n);
    } else {
      var c := Pushes(k - 1, n);
      PushesSlotsAbove(k - 1, n);
      PushesSize(k - 1, n);
      PushedSlotsTail(k - 1 - n, k - 1, n);
      var older := PushedSlots(k - 1 - n + 1, k - 1, n);
      PushFullRing(c, n, PushedSlots(k - 1 - n, k - 1, n), older);
      assert k - 1 - n + 1 == k - n;
      assert PushedSlots(k - n, k, n) == older + [c.write];
    }
  }

  /** Pushing into a full ring drops the oldest queued slot and appends the written one. */
  lemma PushFullRing(c: Cursor, n: nat, queued: seq<int>, older: seq<int>)
    requires CursorOk(c, n) && c.size == n && Slots(c, n) == queued && queued[1..] == older
    ensures Slots(PushCursor(c, n), n) == older + [c.write]
  {
    PushSlots(c, PushCursor(c, n), n);
  }

  /** Pushing into a ring with room appends the written slot to the queued ones. */
  lemma PushFreeRing(c: Cursor, n: nat, queued: seq<int>)
    requires CursorOk(c, n) && c.size < n && Slots(c, n) == queued
    ensures Slots(PushCursor(c, n), n) == queued + [c.write]
  {
    PushSlots(c, PushCursor(c, n), n);
  }

  lemma {:induction false} PushesSize(k: nat, n: nat)
    requires n > 0
    ensures k < n ==> Pushes(k, n).size == k
    ensures k >= n ==> Pushes(k, n).size == n
  {
    if k > 0 {
      PushesSize(k - 1, n);
    }
  }

  /** `ed247::StreamSampleRingBuffer`: a fixed vector of stream samples used as a FIFO. */
  class StreamSampleRingBuffer {
    const samples: seq<StreamSample>
    const samplesCapacity: U32
    var read: nat
    var write: nat
    var size: nat

    function Cur(): Cursor
      reads this
    {
      Cursor(read, write, size)
    }

    ghost predicate Valid()
      reads this
    {
      CursorOk(Cur(), |samples|)
    }

    /** Creates `cap` samples of `samplesCap` bytes each, with every index at 0. */
    constructor (cap: U32, samplesCap: U32)
      ensures |samples| == cap && samplesCapacity == samplesCap
      ensures read == 0 && write == 0 && size == 0
      ensures cap > 0 ==> Valid()
      ensures forall i | 0 <= i < cap :: fresh(samples[i]) && samples[i].Valid()
      ensures forall i | 0 <= i < cap :: samples[i].sample.capacity == samplesCap && samples[i].sample.size == 0
    {
      var acc: seq<StreamSample> := [];
      var i := 0;
      while i < cap
        invariant 0 <= i <= cap && |acc| == i
        invariant forall j | 0 <= j < i :: fresh(acc[j]) && acc[j].Valid()
        invariant forall j | 0 <= j < i :: acc[j].sample.capacity == samplesCap && acc[j].sample.size == 0
      {
        var s := new StreamSample(samplesCap);
        acc := acc + [s];
        i := i + 1;
      }
      samples := acc;
      samplesCapacity := samplesCap;
      read, write, size := 0, 0, 0;
    }

    /** The slot count fixed at construction. */
    function Capacity(): (r: nat)
      ensures r == |samples|
    {
      |samples|
    }

    /** True exactly when no sample is queued. */
    function Empty(): (r: bool)
      reads this
      requires Valid()
      ensures r <==> Slots(Cur(), |samples|) == []
    {
      size == 0
    }

    /** True exactly when every slot holds a queued sample. */
    function Full(): (r: bool)
      reads this
      requires Valid()
      ensures r <==> |Slots(Cur(), |samples|)| == |samples|
    {
      size >= |samples|
    }

    /** The oldest queued sample (an arbitrary slot when empty). */
    function Front(): (s: StreamSample)
      reads this
      requires Valid()
      ensures size > 0 ==> s == samples[Slots(Cur(), |samples|)[0]]
    {
      samples[read]
    }

    /** The newest queued sample: the slot just before the write index. */
    function Back(): (s: StreamSample)
      reads this
      requires Valid()
      ensures size > 0 ==> s == samples[Slots(Cur(), |samples|)[size - 1]]
    {
      samples[if write == 0 then |samples| - 1 else write - 1]
    }

    /** The sample `i` places after the oldest; the index is not bounds-checked. */
    function At(i: nat): (s: StreamSample)
      reads this
      requires Valid()
      ensures i < size ==> s == samples[Slots(Cur(), |samples|)[i]]
    {
      if i < size then
        WrapIsMod(read + i, |samples|);
        samples[(read + i) % |samples|]
      else
        samples[(read + i) % |samples|]
    }

    /** Hands out the slot at the write index as the newest sample, dropping the oldest when full. */
    method PushBack() returns (s: StreamSample)
      requires Valid()
      modifies this
      ensures Valid() && Cur() == PushCursor(old(Cur()), |samples|)
      ensures s == samples[old(write)]
    {
      var current := write;
      ghost var before := Cur();
      write := (write + 1) % |samples|;
      WrapIsMod(before.write + 1, |samples|);
      if size >= |samples| {
        read := (read + 1) % |samples|;
        WrapIsMod(before.read + 1, |samples|);
      } else {
        size := size + 1;
      }
      s := samples[current];
      assert Cur() == PushCursor(before, |samples|);
    }

    /** Takes the oldest sample; on an empty ring returns the slot at the read index and changes nothing. */
    method PopFront() returns (s: StreamSample)
      requires Valid()
      modifies this
      ensures Valid() && Cur() == PopCursor(old(Cur()), |samples|)
      ensures s == samples[old(read)]
    {
      if size == 0 {
        s := samples[read];
      } else {
        var current := read;
        ghost var before := Cur();
        read := (read + 1) % |samples|;
        WrapIsMod(before.read + 1, |samples|);
        size := size - 1;
        s := samples[current];
        assert Cur() == PopCursor(before, |samples|);
      }
    }
  }
}
