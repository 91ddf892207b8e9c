/**
 * `ed247::CircularStreamSampleBuffer` (ed247_stream.h): the send and receive
 * stacks of a stream. It keeps `sample_max_number + 1` slots and derives its
 * fill level from the distance between the read and write indices, so a
 * full stack always leaves one slot free for the next write.
 */
module CircularBuffer {
  import opened Types
  import opened Fifo
  import opened Samples

  /** `update_size`: the distance from the read index to the write index around `slots` slots. */
  function Distance(read: nat, write: nat, slots: nat): nat
    requires read < slots
  {
    if write >= read then write - read else slots + write - read
  }

  /**
   * The index arithmetic of a stack of `n` slots holding at most `m`
   * samples: `n == m + 1`, the write index is `size` places after the read
   * index, and `size` is the distance between them.
   */
  ghost predicate Ring(n: nat, read: nat, write: nat, size: nat, m: nat)
  {
    n == m + 1 && read < n && write < n && size <= m &&
    write == Wrap(read + size, n) && size == Distance(read, write, n)
  }

  /**
   * `increment` below the bound: the write index moves on, the distance
   * grows by one and the write slot joins the queue.
   */
  lemma IncrementBelowBound(sl: seq<SampleValue>, read: nat, write: nat, size: nat, m: nat)
    requires Ring(|sl|, read, write, size, m) && size < m
    ensures var w := (write + 1) % |sl|;
      Distance(read, w, |sl|) == size + 1 && Ring(|sl|, read, w, size + 1, m) &&
      QueueOf(sl, read, Distance(read, w, |sl|)) == BoundedPush(QueueOf(sl, read, size), sl[write], m)
  {
    WrapIsMod(write + 1, |sl|);
    GrowQueue(sl, read, write, size, m);
  }

  /**
   * `increment` at the bound: both indices move on, the distance stays and
   * the write slot replaces the oldest queued one.
   */
  lemma IncrementAtBound(sl: seq<SampleValue>, read: nat, write: nat, size: nat)
    requires Ring(|sl|, read, write, size, size)
    ensures var w, r := (write + 1) % |sl|, (read + 1) % |sl|;
      Distance(r, w, |sl|) == size && Ring(|sl|, r, w, size, size) &&
      QueueOf(sl, r, Distance(r, w, |sl|)) == BoundedPush(QueueOf(sl, read, size), sl[write], size)
  {
    WrapIsMod(write + 1, |sl|);
    WrapIsMod(read + 1, |sl|);
    RollQueue(sl, read, write, size);
  }

  /** No slot holds more than `maxBytes` payload bytes. */
  ghost predicate SlotsFit(slots: seq<SampleValue>, maxBytes: nat)
  {
    forall i | 0 <= i < |slots| :: |slots[i].payload| <= maxBytes
  }

  /**
   * What a `StreamSample` slot holds: the payload bytes (`data()[..size()]`),
   * the data timestamp, the receive timestamp and the frame details.
   */
  datatype SampleValue = SampleValue(payload: seq<Byte>, dataTimestamp: Timestamp,
                                     recvTimestamp: Timestamp, details: SampleDetails)

  /** A freshly allocated slot: no payload, zero timestamps and details. */
  const EMPTY_SAMPLE := SampleValue([], DEFAULT_TIMESTAMP, DEFAULT_TIMESTAMP, DEFAULT_DETAILS)

  class CircularStreamSampleBuffer {
    var slots: seq<SampleValue>
    var read: nat
    var write: nat
    var size: nat
    var maxSizeBytes: nat
    var maxNumber: nat

    /**
     * The stack invariant: `maxNumber + 1` slots, a size that is the
     * read-to-write distance, and no slot holding more than `maxSizeBytes`.
     */
    ghost predicate Valid()
      reads this
    {
      Ring(|slots|, read, write, size, maxNumber) && SlotsFit(slots, maxSizeBytes)
    }

    /** The queued samples, oldest first. */
    function Queue(): (q: seq<SampleValue>)
      reads this
      requires Valid()
      ensures |q| == size
    {
      QueueOf(slots, read, size)
    }

    /** A stack as its owner declares it: no slot until `Allocate`. */
    constructor()
      ensures slots == [] && read == 0 && write == 0 && size == 0
      ensures maxSizeBytes == 0 && maxNumber == 0
    {
      slots, read, write, size := [], 0, 0, 0;
      maxSizeBytes, maxNumber := 0, 0;
    }

    /** `allocate`: `maxNumber + 1` empty slots of `maxBytes` bytes, both indices at 0, nothing queued. */
    method Allocate(maxBytes: U32, maxNum: U32)
      modifies this
      ensures Valid() && Queue() == []
      ensures maxSizeBytes == maxBytes && maxNumber == maxNum
      ensures read == 0 && write == 0
      ensures slots == seq(maxNum + 1, _ => EMPTY_SAMPLE)
    {
      maxSizeBytes := maxBytes;
      maxNumber := maxNum;
      var acc: seq<SampleValue> := [];
      var i := 0;
      while i < maxNum + 1
        invariant 0 <= i <= maxNum + 1
        invariant acc == seq(i, _ => EMPTY_SAMPLE)
      {
        acc := acc + [EMPTY_SAMPLE];
        i := i + 1;
      }
      slots := acc;
      read := 0;
      write := 0;
      size := Distance(read, write, |slots|);
    }

    /** `next_write`: the slot the next pushed sample is written into, which is not queued. */
    function NextWrite(): (v: SampleValue)
      reads this
      requires Valid()
      ensures v == slots[write] && |v.payload| <= maxSizeBytes
    {
      slots[write]
    }

    /** Writing through `next_write()`: replaces the unqueued write slot, leaving the queue as it is. */
    method StoreNext(v: SampleValue)
      requires Valid() && |v.payload| <= maxSizeBytes
      modifies this
      ensures Valid() && Queue() == old(Queue()) && slots == old(slots[write := v])
      ensures read == old(read) && write == old(write) && size == old(size)
      ensures maxNumber == old(maxNumber) && maxSizeBytes == old(maxSizeBytes)
    {
      QueueOfSkipsWrite(slots, read, size, v);
      slots := slots[write := v];
    }

    /**
     * `increment`: commits the write slot as the newest sample. Below
     * `maxNumber` the queue grows and the result says whether it just became
     * full; at `maxNumber` the oldest sample is dropped and the result is true.
     */
    method Increment() returns (full: bool)
      requires Valid()
      modifies this
      ensures Valid() && slots == old(slots) && maxNumber == old(maxNumber)
      ensures maxSizeBytes == old(maxSizeBytes)
      ensures Queue() == BoundedPush(old(Queue()), old(slots[write]), maxNumber)
      ensures full <==> |Queue()| == maxNumber
    {
      var w := (write + 1) % |slots|;
      if size < maxNumber {
        IncrementBelowBound(slots, read, write, size, maxNumber);
        write, size := w, Distance(read, w, |slots|);
        full := size == maxNumber;
      } else {
        IncrementAtBound(slots, read, write, size);
        var r := (read + 1) % |slots|;
        write, read, size := w, r, Distance(r, w, |slots|);
        full := true;
      }
    }

    /**
     * `pop_front`: takes the oldest sample. On an empty stack returns the
     * slot at the read index and reports empty; otherwise `empty` says
     * whether the stack is empty after the pop.
     */
    method PopFront() returns (v: SampleValue, empty: bool)
      requires Valid()
      modifies this
      ensures Valid() && slots == old(slots) && maxNumber == old(maxNumber)
      ensures maxSizeBytes == old(maxSizeBytes) && write == old(write)
      ensures old(size) == 0 ==> empty && Queue() == old(Queue()) && v == slots[read]
      ensures old(size) > 0 ==> v == old(Queue())[0] && Queue() == old(Queue())[1..]
      ensures old(size) > 0 ==> (empty <==> Queue() == [])
    {
      if size == 0 {
        empty := true;
        v := slots[read];
      } else {
        var index := read;
        WrapIsMod(read + 1, |slots|);
        QueueOfDrop(slots, read, size - 1);
        read := (read + 1) % |slots|;
        size := Distance(read, write, |slots|);
        empty := size == 0;
        v := slots[index];
      }
    }

    /** `front`: the oldest queued sample, or nothing when empty. */
    function Front(): (r: Option<SampleValue>)
      reads this
      requires Valid()
      ensures r == if Queue() == [] then None else Some(Queue()[0])
    {
      if size > 0 then Some(slots[read]) else None
    }

    /** `at`: the sample `index` places after the oldest, or nothing past the newest. */
    function At(index: nat): (r: Option<SampleValue>)
      reads this
      requires Valid()
      ensures r == if index < |Queue()| then Some(Queue()[index]) else None
    {
      if index < size then
        WrapIsMod(read + index, |slots|);
        Some(slots[(read + index) % |slots|])
      else None
    }

    /** `back`: the newest queued sample, or nothing when empty. */
    function Back(): (r: Option<SampleValue>)
      reads this
      requires Valid()
      ensures r == if Queue() == [] then None else Some(Queue()[|Queue()| - 1])
    {
      if size > 0 then Some(slots[if write == 0 then |slots| - 1 else write - 1]) else None
    }

    /** `full`: true when the queue holds `maxNumber` samples. */
    function Full(): (r: bool)
      reads this
      requires Valid()
      ensures r <==> |Queue()| == maxNumber
    {
      size >= maxNumber
    }
  }

  /** The `size` slots from `read` on, around the ring, oldest first. */
  function QueueOf(sl: seq<SampleValue>, read: nat, size: nat): (q: seq<SampleValue>)
    requires read < |sl| && size <= |sl|
    ensures |q| == size
    ensures forall i | 0 <= i < size :: q[i] == sl[Wrap(read + i, |sl|)]
  {
    seq(size, i requires 0 <= i < size => sl[Wrap(read + i, |sl|)])
  }

  /** The write slot (`size` after `read`) is not among the queued ones, so storing into it keeps the queue. */
  lemma QueueOfSkipsWrite(sl: seq<SampleValue>, read: nat, size: nat, v: SampleValue)
    requires read < |sl| && size < |sl|
    ensures QueueOf(sl[Wrap(read + size, |sl|) := v], read, size) == QueueOf(sl, read, size)
  {
    var w := Wrap(read + size, |sl|);
    forall i | 0 <= i < size
      ensures QueueOf(sl[w := v], read, size)[i] == QueueOf(sl, read, size)[i]
    {
      assert Wrap(read + i, |sl|) != w;
    }
  }

  /** One more queued slot appends the write slot. */
  lemma QueueOfGrow(sl: seq<SampleValue>, read: nat, size: nat)
    requires read < |sl| && size + 1 <= |sl|
    ensures QueueOf(sl, read, size + 1) == QueueOf(sl, read, size) + [sl[Wrap(read + size, |sl|)]]
  {
  }

  /** Below the bound, committing the write slot appends it to the queue. */
  lemma GrowQueue(sl: seq<SampleValue>, read: nat, write: nat, size: nat, m: nat)
    requires |sl| == m + 1 && read < |sl| && size < m && write == Wrap(read + size, |sl|)
    ensures QueueOf(sl, read, size + 1) == BoundedPush(QueueOf(sl, read, size), sl[write], m)
  {
    QueueOfGrow(sl, read, size);
  }

  /** At the bound, committing the write slot and advancing the read index drops the oldest sample. */
  lemma RollQueue(sl: seq<SampleValue>, read: nat, write: nat, size: nat)
    requires |sl| == size + 1 && read < |sl| && write == Wrap(read + size, |sl|)
    ensures QueueOf(sl, Wrap(read + 1, |sl|), size) == BoundedPush(QueueOf(sl, read, size), sl[write], size)
  {
    if size > 0 {
      QueueOfGrow(sl, read, size);
      QueueOfDrop(sl, read, size);
    }
  }

  /** Advancing the read index drops the oldest slot. */
  lemma QueueOfDrop(sl: seq<SampleValue>, read: nat, size: nat)
    requires read < |sl| && size + 1 <= |sl|
    ensures QueueOf(sl, Wrap(read + 1, |sl|), size) == QueueOf(sl, read, size + 1)[1..]
  {
    var n := |sl|;
    var after, before := QueueOf(sl, Wrap(read + 1, n), size), QueueOf(sl, read, size + 1);
    forall i | 0 <= i < size
      ensures after[i] == before[1..][i]
    {
      assert Wrap(Wrap(read + 1, n) + i, n) == Wrap(read + i + 1, n);
    }
  }

  /**
   * The unit-test scenario of the stack: with room for 4 samples, pushing
   * 1, 2, 3, 4, 5 leaves 2 at the front and 5 at the back.
   */
  lemma OverflowScenario()
    ensures PushAll([], [1, 2, 3, 4, 5], 4) == [2, 3, 4, 5]
  {
    var xs: seq<int> := [1, 2, 3, 4, 5];
    var e: seq<int> := [];
    assert e + xs == xs;
    PushAllKeepsNewest(e, xs, 4);
    assert KeepLast(xs, 4) == xs[1..];
    assert xs[1..] == [2, 3, 4, 5];
  }
}
