/**
 * Rules of the C API in ed247.cpp: the lenient yes/no conversion, the
 * list accessors, the stream sample calls and the time-sample setter.
 * A C pointer argument that may be null is an `Option`, a `?` class type,
 * or a flag telling whether the caller gave it.
 */
module Api {
  import opened Types
  import opened Fifo
  import opened CircularBuffer
  import opened Cursors
  import opened Streams
  import Conversions
  import Internals

  // --- yes/no ---------------------------------------------------------------

  /** `::toupper` in the C locale. */
  function Upper(c: char): (u: char)
    ensures 'a' <= c <= 'z' ==> 'A' <= u <= 'Z' && u as int == c as int - 32
    ensures !('a' <= c <= 'z') ==> u == c
  {
    if 'a' <= c <= 'z' then (c as int - 32) as char else c
  }

  /** The string upper-cased character by character. */
  function ToUpper(s: string): (u: string)
    ensures |u| == |s| && forall i | 0 <= i < |s| :: u[i] == Upper(s[i])
  {
    seq(|s|, i requires 0 <= i < |s| => Upper(s[i]))
  }

  /** `ed247_yesno_from_string`: "NO" or "0", "YES" or "1", in any case. */
  function YesNoFromStringLenient(s: string): int
  {
    var yn := ToUpper(s);
    if yn == "NO" then YESNO_NO
    else if yn == "0" then YESNO_NO
    else if yn == "YES" then YESNO_YES
    else if yn == "1" then YESNO_YES
    else YESNO_INVALID
  }

  /** Upper-casing twice is upper-casing once. */
  lemma ToUpperIdempotent(s: string)
    ensures ToUpper(ToUpper(s)) == ToUpper(s)
  {
  }

  /**
   * The lenient conversion ignores case, accepts everything the strict
   * conversion of ed247_conversion.cpp accepts with the same answer, and
   * inverts `ed247_yesno_string`; a padded string is still invalid.
   */
  lemma LenientYesNo(s: string, t: string, yesno: int)
    ensures ToUpper(s) == ToUpper(t) ==> YesNoFromStringLenient(s) == YesNoFromStringLenient(t)
    ensures Conversions.YesNoFromString(s) != YESNO_INVALID ==> YesNoFromStringLenient(s) == Conversions.YesNoFromString(s)
    ensures YESNO_NO <= yesno <= YESNO_YES ==> YesNoFromStringLenient(Conversions.YesNoString(yesno)) == yesno
    ensures YesNoFromStringLenient(" YES") == YESNO_INVALID
  {
    if Conversions.YesNoFromString(s) == YESNO_NO {
      assert s == "No";
      assert ToUpper(s) == "NO";
    } else if Conversions.YesNoFromString(s) == YESNO_YES {
      assert s == "Yes";
      assert ToUpper(s) == "YES";
    }
    if yesno == YESNO_NO {
      assert ToUpper("No") == "NO";
    } else if yesno == YESNO_YES {
      assert ToUpper("Yes") == "YES";
    }
    assert ToUpper(" YES") == " YES";
  }

  /** The lenient spellings: "no", "0", "yes" and "1" all convert. */
  lemma LenientSpellings()
    ensures YesNoFromStringLenient("no") == YESNO_NO && YesNoFromStringLenient("0") == YESNO_NO
    ensures YesNoFromStringLenient("yEs") == YESNO_YES && YesNoFromStringLenient("1") == YESNO_YES
    ensures YesNoFromStringLenient("2") == YESNO_INVALID
  {
    assert ToUpper("no") == "NO";
    assert ToUpper("0") == "0";
    assert ToUpper("yEs") == "YES";
    assert ToUpper("1") == "1";
    assert ToUpper("2") == "2";
  }

  // --- lists ----------------------------------------------------------------

  /**
   * `ed247_*_list_next`: a null list or a null out-pointer fails and moves
   * nothing; otherwise the list steps once and its new current element is
   * handed out, null past the last one.
   */
  method ListNext<T>(list: Internals.SmartList?<T>, outGiven: bool) returns (s: Status, p: Pointer<T>)
    requires list != null ==> list.Valid()
    modifies list
    ensures list == null || !outGiven ==> s == Failure && p == Null
    ensures list != null && !outGiven ==> list.cursor == old(list.cursor) && list.steps == old(list.steps)
    ensures list != null && outGiven ==>
      s == Success && list.Valid() && list.items == old(list.items) && list.steps == old(list.steps) + 1 &&
      p == At(list.items, Walk(list.steps, |list.items|))
  {
    if list == null || !outGiven {
      return Failure, Null;
    }
    p := list.NextOk();
    s := Success;
  }

  /** `ed247_*_list_size`: a null list or a null out-pointer fails; otherwise the number of elements. */
  method ListSize<T>(list: Internals.SmartList?<T>, outGiven: bool) returns (s: Status, size: nat)
    ensures list == null || !outGiven ==> s == Failure && size == 0
    ensures list != null && outGiven ==> s == Success && size == |list.items|
  {
    if list == null || !outGiven {
      return Failure, 0;
    }
    s, size := Success, |list.items|;
  }

  /** `ed247_*_list_free`: a null list fails; otherwise the list is deleted unless the library manages it. */
  method ListFree<T>(list: Internals.SmartList?<T>) returns (s: Status, deleted: bool)
    ensures list == null ==> s == Failure && !deleted
    ensures list != null ==> s == Success && (deleted <==> !list.managed)
  {
    if list == null {
      return Failure, false;
    }
    var managed := list.Managed();
    s, deleted := Success, !managed;
  }

  /** The first step of a fresh list hands out its first element, and the step after the last one hands out null. */
  lemma ListWalk<T>(items: seq<T>)
    ensures At(items, Walk(1, |items|)) == if items == [] then Null else Ptr(items[0])
    ensures At(items, Walk(|items| + 1, |items|)) == Null
  {
    Loops(items);
  }

  // --- stream samples -------------------------------------------------------

  /**
   * `ed247_stream_samples_number`: a null stream, a null out-pointer or a
   * direction other than IN or OUT fails; otherwise the depth of the
   * receive stack for IN and of the send stack for OUT.
   */
  method StreamSamplesNumber(stream: Stream?, direction: int, sizeGiven: bool) returns (s: Status, size: nat)
    requires stream != null ==> stream.Valid()
    ensures s == Success <==> stream != null && sizeGiven && (direction == DIR_IN || direction == DIR_OUT)
    ensures s != Success ==> s == Failure && size == 0
    ensures s == Success && direction == DIR_IN ==> size == |stream.recvStack.Queue()|
    ensures s == Success && direction == DIR_OUT ==> size == |stream.sendStack.Queue()|
  {
    if stream == null || !sizeGiven || (direction != DIR_IN && direction != DIR_OUT) {
      return Failure, 0;
    }
    s := Success;
    size := if direction == DIR_IN then stream.recvStack.size else stream.sendStack.size;
  }

  /**
   * `ed247_stream_pop_sample`: a null stream or null data or size pointer
   * fails; an empty receive stack answers NODATA with null data and size
   * 0; otherwise the oldest received sample is popped and handed out. The
   * source dereferences the sample that `pop_sample` returns, which is null
   * on a stream without IN, so a caller must not reach that with samples
   * queued on such a stream.
   */
  method StreamPopSample(stream: Stream?, dataGiven: bool, sizeGiven: bool)
    returns (s: Status, sample: Option<SampleValue>, size: nat, empty: bool)
    requires stream != null ==> stream.Valid()
    requires stream != null && dataGiven && sizeGiven && stream.recvStack.Queue() != [] ==> HasIn(stream.cfg.direction)
    modifies if stream != null then {stream.recvStack} else {}
    ensures stream == null || !dataGiven || !sizeGiven ==> s == Failure && sample.None? && size == 0
    ensures stream != null ==> stream.Valid()
    ensures stream != null && dataGiven && sizeGiven && old(stream.recvStack.Queue()) == [] ==>
      s == NoData && sample.None? && size == 0 && stream.recvStack.Queue() == []
    ensures stream != null && dataGiven && sizeGiven && old(stream.recvStack.Queue()) != [] ==>
      s == Success && sample == Some(old(stream.recvStack.Queue())[0]) && size == |sample.value.payload| &&
      stream.recvStack.Queue() == old(stream.recvStack.Queue())[1..] && (empty <==> stream.recvStack.Queue() == [])
  {
    if stream == null || !dataGiven || !sizeGiven {
      return Failure, None, 0, false;
    }
    if stream.recvStack.size == 0 {
      return NoData, None, 0, false;
    }
    var v;
    v, empty := stream.PopSample();
    s, sample, size := Success, v, |v.value.payload|;
  }

  /** Where sample `i` of a packed buffer starts: the sum of the sizes before it. */
  function Offset(sizes: seq<nat>, i: nat): nat
    requires i <= |sizes|
  {
    if i == 0 then 0 else Offset(sizes, i - 1) + sizes[i - 1]
  }

  /** Samples start in order. */
  lemma {:induction false} OffsetMonotone(sizes: seq<nat>, i: nat, j: nat)
    requires i <= j <= |sizes|
    ensures Offset(sizes, i) <= Offset(sizes, j)
    decreases j - i
  {
    if i < j {
      OffsetMonotone(sizes, i, j - 1);
    }
  }

  /** The first `n` samples of a packed buffer: sample `i` starts where sample `i - 1` ended. */
  function Slices(data: seq<Byte>, sizes: seq<nat>, n: nat): (r: seq<seq<Byte>>)
    requires n <= |sizes| && Offset(sizes, n) <= |data|
    ensures |r| == n
  {
    if n == 0 then []
    else
      Slices(data, sizes, n - 1) + [data[Offset(sizes, n - 1)..Offset(sizes, n)]]
  }

  /** The concatenated slices are the first `Offset(sizes, n)` bytes, and slice `i` has size `sizes[i]`. */
  lemma {:induction false} SlicesCoverData(data: seq<Byte>, sizes: seq<nat>, n: nat)
    requires n <= |sizes| && Offset(sizes, n) <= |data|
    ensures Concat(Slices(data, sizes, n)) == data[..Offset(sizes, n)]
    ensures forall i | 0 <= i < n :: |Slices(data, sizes, n)[i]| == sizes[i]
  {
    if n > 0 {
      SlicesCoverData(data, sizes, n - 1);
      var init := Slices(data, sizes, n - 1);
      var last := data[Offset(sizes, n - 1)..Offset(sizes, n)];
      ConcatSnoc(init, last);
      assert data[..Offset(sizes, n)] == data[..Offset(sizes, n - 1)] + last;
    }
  }

  /** The bytes of a sequence of slices, back to back. */
  function Concat(xs: seq<seq<Byte>>): seq<Byte>
  {
    if xs == [] then [] else Concat(xs[..|xs| - 1]) + xs[|xs| - 1]
  }

  lemma ConcatSnoc(xs: seq<seq<Byte>>, x: seq<Byte>)
    ensures Concat(xs + [x]) == Concat(xs) + x
  {
    assert (xs + [x])[..|xs|] == xs;
  }

  /** The slices `push_sample` takes from a stream with OUT: those within its maximum sample size. */
  function Accepted(slices: seq<seq<Byte>>, maxSizeBytes: nat): seq<seq<Byte>>
  {
    if slices == [] then []
    else
      var last := slices[|slices| - 1];
      Accepted(slices[..|slices| - 1], maxSizeBytes) + (if |last| <= maxSizeBytes then [last] else [])
  }

  /** Every accepted slice is one of the slices, within the maximum size, and there are no more of them than slices. */
  lemma {:induction false} AcceptedWithin(slices: seq<seq<Byte>>, maxSizeBytes: nat)
    ensures forall x | x in Accepted(slices, maxSizeBytes) :: x in slices && |x| <= maxSizeBytes
    ensures |Accepted(slices, maxSizeBytes)| <= |slices|
  {
    if slices != [] {
      var init := slices[..|slices| - 1];
      var last := slices[|slices| - 1];
      AcceptedWithin(init, maxSizeBytes);
      assert slices == init + [last];
      var r := Accepted(slices, maxSizeBytes);
      var tail := if |last| <= maxSizeBytes then [last] else [];
      assert r == Accepted(init, maxSizeBytes) + tail;
      forall x | x in r ensures x in slices && |x| <= maxSizeBytes {
        if x in Accepted(init, maxSizeBytes) {
          assert x in init;
        } else {
          assert x in tail;
        }
      }
    }
  }

  /** When no slice is too large, all of them are accepted. */
  lemma {:induction false} AcceptedAll(slices: seq<seq<Byte>>, maxSizeBytes: nat)
    requires forall i | 0 <= i < |slices| :: |slices[i]| <= maxSizeBytes
    ensures Accepted(slices, maxSizeBytes) == slices
  {
    if slices != [] {
      var init := slices[..|slices| - 1];
      AcceptedAll(init, maxSizeBytes);
      assert init + [slices[|slices| - 1]] == slices;
    }
  }

  /** One more slice: it is appended to the slices, and to the accepted ones when it fits. */
  lemma SlicesStep(data: seq<Byte>, sizes: seq<nat>, i: nat, maxSizeBytes: nat)
    requires i < |sizes| && Offset(sizes, i + 1) <= |data|
    ensures Offset(sizes, i) + sizes[i] <= |data|
    ensures Slices(data, sizes, i + 1) == Slices(data, sizes, i) + [data[Offset(sizes, i)..Offset(sizes, i) + sizes[i]]]
    ensures var last := data[Offset(sizes, i)..Offset(sizes, i) + sizes[i]];
      Accepted(Slices(data, sizes, i + 1), maxSizeBytes) ==
      Accepted(Slices(data, sizes, i), maxSizeBytes) + (if |last| <= maxSizeBytes then [last] else [])
  {
    var all := Slices(data, sizes, i + 1);
    assert all[..|all| - 1] == Slices(data, sizes, i);
  }

  /** The payloads of a queue of samples, oldest first. */
  function Payloads(q: seq<SampleValue>): (r: seq<seq<Byte>>)
    ensures |r| == |q|
  {
    if q == [] then [] else Payloads(q[..|q| - 1]) + [q[|q| - 1].payload]
  }

  /** Payload `i` is the payload of sample `i`. */
  lemma {:induction false} PayloadsAt(q: seq<SampleValue>, i: nat)
    requires i < |q|
    ensures Payloads(q)[i] == q[i].payload
  {
    if i < |q| - 1 {
      PayloadsAt(q[..|q| - 1], i);
    }
  }

  /** The payloads of two queues back to back. */
  lemma {:induction false} PayloadsAppend(a: seq<SampleValue>, b: seq<SampleValue>)
    ensures Payloads(a + b) == Payloads(a) + Payloads(b)
  {
    if b == [] {
      assert a + b == a;
    } else {
      var init, last := b[..|b| - 1], b[|b| - 1];
      PayloadsAppend(a, init);
      var ab := a + b;
      assert ab[..|ab| - 1] == a + init && ab[|ab| - 1] == last;
      assert Payloads(ab) == Payloads(a + init) + [last.payload];
      assert Payloads(b) == Payloads(init) + [last.payload];
    }
  }

  /** Dropping the oldest samples drops the oldest payloads. */
  lemma PayloadsOfDrop(q: seq<SampleValue>, k: nat)
    requires k <= |q|
    ensures Payloads(q[k..]) == Payloads(q)[k..]
  {
    assert q == q[..k] + q[k..];
    PayloadsAppend(q[..k], q[k..]);
  }

  /** Keeping the newest samples keeps the newest payloads. */
  lemma PayloadsOfKeepLast(q: seq<SampleValue>, m: nat)
    ensures Payloads(KeepLast(q, m)) == KeepLast(Payloads(q), m)
  {
    var k := if |q| <= m then 0 else |q| - m;
    assert KeepLast(q, m) == q[k..];
    assert KeepLast(Payloads(q), m) == Payloads(q)[k..];
    PayloadsOfDrop(q, k);
  }

  /** Pushing a sample pushes its payload onto the payloads. */
  lemma PayloadsOfPush(q: seq<SampleValue>, v: SampleValue, m: nat)
    requires |q| <= m
    ensures Payloads(BoundedPush(q, v, m)) == BoundedPush(Payloads(q), v.payload, m)
  {
    PayloadsAppend(q, [v]);
    PayloadsOfKeepLast(q + [v], m);
  }

  /** Pushing samples pushes their payloads onto the payloads. */
  lemma PayloadsOfPushAll(q: seq<SampleValue>, vs: seq<SampleValue>, m: nat)
    requires |q| <= m
    ensures Payloads(PushAll(q, vs, m)) == PushAll(Payloads(q), Payloads(vs), m)
  {
    PushAllKeepsNewest(q, vs, m);
    PushAllKeepsNewest(Payloads(q), Payloads(vs), m);
    PayloadsOfKeepLast(q + vs, m);
    PayloadsAppend(q, vs);
  }

  /**
   * Where `ed247_stream_push_samples` stands after `i` of `n` samples: `sum`
   * bytes consumed, and `vs` the samples the stream took so far, whose
   * payloads are the accepted slices (none on a stream without OUT).
   */
  ghost predicate Pushing(vs: seq<SampleValue>, out: bool, maxSizeBytes: nat, data: seq<Byte>, sizes: seq<nat>, n: nat, i: nat, sum: nat)
  {
    i <= n <= |sizes| && Offset(sizes, n) <= |data| && sum == Offset(sizes, i) && sum <= Offset(sizes, n) &&
    Payloads(vs) == (if out then Accepted(Slices(data, sizes, i), maxSizeBytes) else [])
  }

  /** Sample `i` lies within the data. */
  lemma PushingBounds(vs: seq<SampleValue>, out: bool, maxSizeBytes: nat, data: seq<Byte>, sizes: seq<nat>, n: nat, i: nat, sum: nat)
    requires Pushing(vs, out, maxSizeBytes, data, sizes, n, i, sum) && i < n
    ensures sum + sizes[i] <= Offset(sizes, n) <= |data|
  {
    OffsetMonotone(sizes, i + 1, n);
  }

  /** One more `push_sample` call: the sample is taken exactly when the stream has OUT and the slice fits. */
  lemma PushingStep(vs: seq<SampleValue>, out: bool, maxSizeBytes: nat, data: seq<Byte>, sizes: seq<nat>, n: nat, i: nat, sum: nat,
                    slice: seq<Byte>, ok: bool, v: SampleValue)
    requires Pushing(vs, out, maxSizeBytes, data, sizes, n, i, sum) && i < n
    requires sum + sizes[i] <= |data| && slice == data[sum..sum + sizes[i]]
    requires ok <==> out && |slice| <= maxSizeBytes
    requires ok ==> v.payload == slice
    ensures Pushing(if ok then vs + [v] else vs, out, maxSizeBytes, data, sizes, n, i + 1, sum + sizes[i])
  {
    OffsetMonotone(sizes, i + 1, n);
    SlicesStep(data, sizes, i, maxSizeBytes);
    if out {
      var pushed := Accepted(Slices(data, sizes, i), maxSizeBytes);
      var next := Accepted(Slices(data, sizes, i + 1), maxSizeBytes);
      if ok {
        assert next == pushed + [slice];
        assert (vs + [v])[..|vs|] == vs;
      } else {
        assert next == pushed + [];
        assert pushed + [] == pushed;
      }
    }
  }

  /**
   * The loop counter of `ed247_stream_push_samples` as written: a 32-bit
   * unsigned `i` compared with the `size_t` sample count; this is its value
   * after `k` increments.
   */
  function AsWrittenCounter(k: nat): (i: nat)
    ensures i < 0x1_0000_0000
  {
    if k == 0 then 0 else (AsWrittenCounter(k - 1) + 1) % 0x1_0000_0000
  }

  /** Below 2^32 increments the 32-bit counter counts exactly. */
  lemma {:induction false} AsWrittenCounterCounts(k: nat)
    requires k < 0x1_0000_0000
    ensures AsWrittenCounter(k) == k
  {
    if k > 0 {
      AsWrittenCounterCounts(k - 1);
    }
  }

  /**
   * Below 2^32 samples the counter leaves the loop after exactly `n`
   * pushes; from 2^32 samples on, the loop guard holds after any number of
   * pushes, so the loop never ends (and the counter comes back to the first
   * sample). `PushSlices` counts without bound instead.
   */
  lemma AsWrittenPushLoop(n: nat, k: nat)
    ensures n < 0x1_0000_0000 && k <= n ==> (AsWrittenCounter(k) < n <==> k < n) && AsWrittenCounter(k) == k
    ensures n >= 0x1_0000_0000 ==> AsWrittenCounter(k) < n
    ensures k == 0x1_0000_0000 ==> AsWrittenCounter(k) == 0
  {
    if k < 0x1_0000_0000 {
      AsWrittenCounterCounts(k);
    } else if k == 0x1_0000_0000 {
      AsWrittenCounterCounts(k - 1);
    }
  }

  /**
   * The loop of `ed247_stream_push_samples`: the `n` samples cut out of
   * `data`, pushed in order; `vs` are the samples the stream took, and the
   * send stack is the old one with them pushed.
   */
  method PushSlices(stream: Stream, data: seq<Byte>, sizes: seq<nat>, n: nat, stamp: Option<Timestamp>)
    returns (full: Option<bool>, ghost vs: seq<SampleValue>)
    requires stream.Valid() && n <= |sizes| && Offset(sizes, n) <= |data|
    modifies stream.sendStack
    ensures stream.Valid()
    ensures stream.sendStack.Queue() == PushAll(old(stream.sendStack.Queue()), vs, stream.cfg.maxNumber)
    ensures Pushing(vs, HasOut(stream.cfg.direction), stream.cfg.maxSizeBytes, data, sizes, n, n, Offset(sizes, n))
    ensures full.Some? <==> vs != []
    ensures full.Some? ==> (full.value <==> |stream.sendStack.Queue()| == stream.cfg.maxNumber)
  {
    ghost var q00 := stream.sendStack.Queue();
    ghost var m := stream.cfg.maxNumber;
    ghost var out := HasOut(stream.cfg.direction);
    ghost var q := q00;
    var sum := 0;
    var i := 0;
    full := None;
    vs := [];
    OffsetMonotone(sizes, 0, n);
    while i < n
      invariant i <= n && sum == Offset(sizes, i)
      invariant stream.Valid() && stream.sendStack.Queue() == q
      invariant q == PushAll(q00, vs, m)
      invariant Pushing(vs, out, stream.cfg.maxSizeBytes, data, sizes, n, i, sum)
      invariant full.Some? <==> vs != []
      invariant full.Some? ==> (full.value <==> |q| == m)
    {
      PushingBounds(vs, out, stream.cfg.maxSizeBytes, data, sizes, n, i, sum);
      var slice := data[sum..sum + sizes[i]];
      ghost var v := Pushed(stream.sendStack.NextWrite(), slice, stamp);
      var ok, f := stream.PushSample(slice, stamp);
      PushingStep(vs, out, stream.cfg.maxSizeBytes, data, sizes, n, i, sum, slice, ok, v);
      if ok {
        PushAllSnoc(q00, vs, v, m);
        q := BoundedPush(q, v, m);
        vs := vs + [v];
        full := Some(f);
      }
      sum := sum + sizes[i];
      i := i + 1;
    }
  }

  /**
   * `ed247_stream_push_samples`: a null stream, data or size array fails;
   * otherwise `samples_number` samples are cut back to back out of the
   * data and pushed one after the other with the same data timestamp. A
   * sample the stream refuses is skipped. `full` is what the last accepted
   * push reported, and is not written when none was accepted.
   */
  method StreamPushSamples(stream: Stream?, data: Option<seq<Byte>>, sizes: Option<seq<nat>>, n: nat, stamp: Option<Timestamp>)
    returns (s: Status, full: Option<bool>)
    requires stream != null ==> stream.Valid()
    requires sizes.Some? ==> n <= |sizes.value|
    requires data.Some? && sizes.Some? ==> Offset(sizes.value, n) <= |data.value|
    modifies if stream != null then {stream.sendStack} else {}
    ensures s == Failure <==> stream == null || data.None? || sizes.None?
    ensures s != Failure ==> s == Success
    ensures stream != null ==> stream.Valid()
    ensures s == Failure ==> full.None?
    ensures s == Success && !HasOut(stream.cfg.direction) ==> stream.sendStack.Queue() == old(stream.sendStack.Queue()) && full.None?
    ensures s == Success && HasOut(stream.cfg.direction) ==>
      var pushed := Accepted(Slices(data.value, sizes.value, n), stream.cfg.maxSizeBytes);
      Payloads(stream.sendStack.Queue()) == PushAll(Payloads(old(stream.sendStack.Queue())), pushed, stream.cfg.maxNumber) &&
      (full.Some? <==> pushed != []) &&
      (full.Some? ==> (full.value <==> |stream.sendStack.Queue()| == stream.cfg.maxNumber))
  {
    if stream == null || data.None? || sizes.None? {
      return Failure, None;
    }
    ghost var q00 := stream.sendStack.Queue();
    ghost var vs;
    full, vs := PushSlices(stream, data.value, sizes.value, n, stamp);
    PayloadsOfPushAll(q00, vs, stream.cfg.maxNumber);
    if !HasOut(stream.cfg.direction) {
      assert vs == [] by {
        assert |Payloads(vs)| == 0;
      }
    }
    s := Success;
  }

  // --- time samples ---------------------------------------------------------

  /** `ed247_time_sample_t`: a timestamp the user owns. */
  class TimeSample {
    var epochS: U32
    var offsetNs: U32

    constructor()
      ensures epochS == 0 && offsetNs == 0
    {
      epochS, offsetNs := 0, 0;
    }
  }

  /** `libed247_update_time`: a null sample fails; otherwise both fields take the given values. */
  method UpdateTime(sample: TimeSample?, epochS: U32, offsetNs: U32) returns (s: Status)
    modifies sample
    ensures sample == null ==> s == Failure
    ensures sample != null ==> s == Success && sample.epochS == epochS && sample.offsetNs == offsetNs
  {
    if sample == null {
      return Failure;
    }
    sample.epochS, sample.offsetNs := epochS, offsetNs;
    s := Success;
  }
}
