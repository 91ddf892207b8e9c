/**
 * The older frame header of ed247_header.cpp and ed247_header.h. Its
 * layout on the wire is the one of `FrameHeaders`, but on reception it
 * keeps one tracker per producing component (at most 64) and counts the
 * frames each producer's sequence numbers show as missed, saturating at
 * 0xFFFF.
 */
module LegacyHeaders {
  import opened Types
  import opened Swaps
  import opened FrameHeaders

  /** `MAX_PID_SN_TRACKER`: the most producers a header tracks. */
  const MAX_PID_SN_TRACKER: nat := 64

  /** The most missed frames a tracker counts. */
  const MISSED_MAX: nat := 0xFFFF

  /** `header_element_t`: what a header says, plus the frames missed from its producer. */
  datatype HeaderElement = HeaderElement(componentId: U16, sequenceNumber: U16, transportTimestamp: Timestamp, missedFrames: U32)

  const ZERO_ELEMENT := HeaderElement(0, 0, Timestamp(0, 0), 0)

  /**
   * The frames missed between sequence number `last` and the next one
   * received, `sn`: the numbers skipped going forward modulo 2^16. A
   * repeated number counts as a full turn less one.
   */
  function Missed(last: U16, sn: U16): (m: nat)
    ensures m < 0x1_0000 && (last + m + 1) % 0x1_0000 == sn
  {
    if sn > last then sn - last - 1 else 0xFFFF - last + sn
  }

  /** Frames missed added to a tracker's count, which saturates at 0xFFFF. */
  function Accumulate(total: nat, m: nat): (r: nat)
    requires total <= MISSED_MAX && m <= MISSED_MAX
    ensures r == if total + m <= MISSED_MAX then total + m else MISSED_MAX
  {
    if total > MISSED_MAX - m then MISSED_MAX else total + m
  }

  /** The position of the tracker of component `id`, or `|hs|` when there is none (`find_if`). */
  function Find(hs: seq<HeaderElement>, id: U16): (i: nat)
    ensures i <= |hs| && (i < |hs| ==> hs[i].componentId == id)
    ensures forall j | 0 <= j < i :: hs[j].componentId != id
  {
    if hs == [] then 0
    else if hs[0].componentId == id then 0
    else 1 + Find(hs[1..], id)
  }

  /** Trackers with one producer each, within the limit, each count within its saturation bound. */
  ghost predicate Trackers(hs: seq<HeaderElement>)
  {
    |hs| <= MAX_PID_SN_TRACKER &&
    (forall i, j | 0 <= i < j < |hs| :: hs[i].componentId != hs[j].componentId) &&
    (forall i | 0 <= i < |hs| :: hs[i].missedFrames <= MISSED_MAX)
  }

  /** The trackers after a header is received, and which one it updated; or the error for one producer too many. */
  datatype Tracking = Tracked(trackers: seq<HeaderElement>, at: nat) | TooManyProducers

  /**
   * Receiving header `e`: a new producer gets a tracker with no missed
   * frame, unless 64 are tracked already; a known one adds the frames its
   * sequence number skipped and takes the new number and timestamp.
   */
  function Track(hs: seq<HeaderElement>, e: HeaderElement): (r: Tracking)
    requires Trackers(hs)
  {
    var i := Find(hs, e.componentId);
    if i == |hs| then
      if |hs| >= MAX_PID_SN_TRACKER then TooManyProducers
      else Tracked(hs + [e.(missedFrames := 0)], |hs|)
    else
      var t := hs[i];
      Tracked(hs[i := t.(missedFrames := Accumulate(t.missedFrames, Missed(t.sequenceNumber, e.sequenceNumber)),
                         sequenceNumber := e.sequenceNumber, transportTimestamp := e.transportTimestamp)], i)
  }

  /**
   * Tracking keeps the trackers well formed: the updated tracker is the
   * sender's and holds the number and timestamp just received, the others
   * are untouched, and the error comes exactly when a 65th producer shows.
   */
  lemma TrackKeeps(hs: seq<HeaderElement>, e: HeaderElement)
    requires Trackers(hs)
    ensures Track(hs, e).TooManyProducers? <==>
      |hs| == MAX_PID_SN_TRACKER && forall j | 0 <= j < |hs| :: hs[j].componentId != e.componentId
    ensures Track(hs, e).Tracked? ==> (
      var hs', at := Track(hs, e).trackers, Track(hs, e).at;
      Trackers(hs') && at < |hs'| && |hs| <= |hs'| <= |hs| + 1 &&
      hs'[at].componentId == e.componentId && hs'[at].sequenceNumber == e.sequenceNumber &&
      hs'[at].transportTimestamp == e.transportTimestamp &&
      forall j | 0 <= j < |hs| && j != at :: hs'[j] == hs[j])
  {
  }

  /** The sum of the trackers' missed frames. */
  function TotalMissed(hs: seq<HeaderElement>): nat
  {
    if hs == [] then 0 else TotalMissed(hs[..|hs| - 1]) + hs[|hs| - 1].missedFrames
  }

  /** The sum never reaches 2^32 for well-formed trackers, so the 32-bit sum never wraps. */
  lemma {:induction false} TotalMissedBound(hs: seq<HeaderElement>)
    requires forall i | 0 <= i < |hs| :: hs[i].missedFrames <= MISSED_MAX
    ensures TotalMissed(hs) <= |hs| * MISSED_MAX
  {
    if hs != [] {
      TotalMissedBound(hs[..|hs| - 1]);
    }
  }

  /** What `decode` reads of a frame: a header element, or the index reached when the frame ends first. */
  datatype Reading = Element(e: HeaderElement) | Short(at: nat)

  /**
   * Reading a header from the start of a frame. The frame must hold the
   * identifier and the sequence number, and the timestamp when it is
   * enabled; with the timestamp disabled its eight bytes are skipped
   * without a check and the timestamp taken as zero.
   */
  function ReadElement(frame: seq<Byte>, transport: bool): Reading
  {
    if |frame| < 2 then Short(0)
    else if |frame| < 4 then Short(2)
    else if transport && |frame| < HEADER_SIZE then Short(4)
    else
      Element(HeaderElement(ReadBE16(frame, 0), ReadBE16(frame, 2),
        if transport then Timestamp(ReadBE32(frame, 4), ReadBE32(frame, 8)) else Timestamp(0, 0), 0))
  }

  /** What a `decode` came to. */
  datatype Received = Accepted(next: nat) | Rejected(next: nat) | TooMany

  /**
   * What an `encode` came to: the index past the header, or `Overrun`
   * when the opening `memset` already ran past the frame (undefined
   * behaviour), `raises` telling whether a capacity check then raises.
   */
  datatype LegacyWrite = Written(next: nat) | Overrun(raises: bool)

  /** The older `FrameHeader`: the header sent and the trackers of the producers heard. */
  class FrameHeader {
    const enabled: bool
    const transport: bool
    var sendHeader: HeaderElement
    var recvHeaders: seq<HeaderElement>
    /** `_recv_headers_iter`: the tracker last updated, `|recvHeaders|` standing for the end. */
    var current: nat

    ghost predicate Valid()
      reads this
    {
      Trackers(recvHeaders) && current <= |recvHeaders|
    }

    /** A new header has a zeroed send header, no tracker, and its iterator at the end. */
    constructor(enabled: bool, transport: bool)
      ensures Valid() && this.enabled == enabled && this.transport == transport
      ensures sendHeader == ZERO_ELEMENT && recvHeaders == [] && current == 0
    {
      this.enabled := enabled;
      this.transport := transport;
      sendHeader := ZERO_ELEMENT;
      recvHeaders := [];
      current := 0;
    }

    /** `length()`: the header size, 0 when the header is disabled. */
    function Length(): nat
    {
      if enabled then HEADER_SIZE else 0
    }

    /**
     * `encode` for component `id` at `index`, `now` being the clock's
     * transport timestamp. The header is written and the sequence number
     * counted up modulo 2^16. A header that does not fit makes the opening
     * twelve-byte `memset` run past the frame before any check: the model
     * reports that as `Overrun`, writes nothing, and records whether a
     * check then raises and whether the sequence number was counted up
     * before it.
     */
    method Encode(frame: array<Byte>, index: nat, id: U16, now: Timestamp) returns (r: LegacyWrite)
      modifies this`sendHeader, frame
      ensures !enabled ==> r == Written(index) && frame[..] == old(frame[..]) && sendHeader == old(sendHeader)
      ensures enabled && index + HEADER_SIZE > frame.Length ==>
        r == Overrun(transport || index + 4 > frame.Length) && frame[..] == old(frame[..]) &&
        sendHeader == old(sendHeader).(
          sequenceNumber := if index + 4 <= frame.Length then (old(sendHeader).sequenceNumber + 1) % 0x1_0000
                            else old(sendHeader).sequenceNumber,
          transportTimestamp := if transport then now else old(sendHeader).transportTimestamp)
      ensures enabled && index + HEADER_SIZE <= frame.Length ==>
        r == Written(index + Length()) &&
        frame[..] == old(frame[..index]) + HeaderBytes(id, old(sendHeader).sequenceNumber, transport, now) + old(frame[index + HEADER_SIZE..]) &&
        sendHeader == old(sendHeader).(sequenceNumber := (old(sendHeader).sequenceNumber + 1) % 0x1_0000,
                                       transportTimestamp := if transport then now else old(sendHeader).transportTimestamp)
    {
      if !enabled {
        return Written(index);
      }
      if transport {
        sendHeader := sendHeader.(transportTimestamp := now);
      }
      if index + HEADER_SIZE > frame.Length {
        if index + 4 <= frame.Length {
          sendHeader := sendHeader.(sequenceNumber := (sendHeader.sequenceNumber + 1) % 0x1_0000);
        }
        return Overrun(transport || index + 4 > frame.Length);
      }
      WriteRange(frame, index, HeaderBytes(id, sendHeader.sequenceNumber, transport, now));
      sendHeader := sendHeader.(sequenceNumber := (sendHeader.sequenceNumber + 1) % 0x1_0000);
      r := Written(index + HEADER_SIZE);
    }

    /** The `find_if` over the trackers. */
    method FindTracker(id: U16) returns (i: nat)
      ensures i == Find(recvHeaders, id)
    {
      i := 0;
      while i < |recvHeaders| && recvHeaders[i].componentId != id
        invariant i <= |recvHeaders| && Find(recvHeaders, id) == i + Find(recvHeaders[i..], id)
      {
        assert recvHeaders[i..][1..] == recvHeaders[i + 1..];
        i := i + 1;
      }
    }

    /**
     * `decode` of a frame, always read from its start. A frame too short
     * for what is enabled is rejected with the trackers untouched;
     * otherwise the sender's tracker is created or updated as `Track`
     * says, and one producer past the 64th raises.
     */
    method Decode(frame: seq<Byte>) returns (r: Received)
      requires Valid()
      modifies this`recvHeaders, this`current
      ensures Valid()
      ensures !enabled ==> r == Accepted(0) && recvHeaders == old(recvHeaders) && current == old(current)
      ensures enabled && ReadElement(frame, transport).Short? ==>
        r == Rejected(ReadElement(frame, transport).at) && recvHeaders == old(recvHeaders) && current == old(current)
      ensures enabled && ReadElement(frame, transport).Element? ==> (
        match Track(old(recvHeaders), ReadElement(frame, transport).e)
        case Tracked(hs, at) => r == Accepted(HEADER_SIZE) && recvHeaders == hs && current == at
        case TooManyProducers => r == TooMany && recvHeaders == old(recvHeaders) && current == |recvHeaders|)
    {
      if !enabled {
        return Accepted(0);
      }
      var reading := ReadElement(frame, transport);
      if reading.Short? {
        return Rejected(reading.at);
      }
      var e := reading.e;
      TrackKeeps(recvHeaders, e);
      var i := FindTracker(e.componentId);
      if i == |recvHeaders| {
        if |recvHeaders| >= MAX_PID_SN_TRACKER {
          current := |recvHeaders|;
          return TooMany;
        }
        recvHeaders := recvHeaders + [e.(missedFrames := 0)];
        current := |recvHeaders| - 1;
      } else {
        var t := recvHeaders[i];
        var missed := Missed(t.sequenceNumber, e.sequenceNumber);
        var total := if t.missedFrames > MISSED_MAX - missed then MISSED_MAX else t.missedFrames + missed;
        recvHeaders := recvHeaders[i := t.(missedFrames := total, sequenceNumber := e.sequenceNumber,
                                           transportTimestamp := e.transportTimestamp)];
        current := i;
      }
      r := Accepted(HEADER_SIZE);
    }

    /** `missed_frames()`: the 32-bit sum of every tracker's count, which never wraps. */
    method MissedFrames() returns (total: U32)
      requires Valid()
      ensures total == TotalMissed(recvHeaders)
    {
      total := 0;
      var k := 0;
      while k < |recvHeaders|
        invariant k <= |recvHeaders| && total == TotalMissed(recvHeaders[..k])
      {
        assert recvHeaders[..k + 1][..k] == recvHeaders[..k];
        TotalMissedBound(recvHeaders[..k + 1]);
        total := (total + recvHeaders[k].missedFrames) % 0x1_0000_0000;
        k := k + 1;
      }
      assert recvHeaders[..k] == recvHeaders;
    }

    /** `operator==`: two headers are equal exactly when their send headers are. */
    predicate Equals(other: FrameHeader)
      reads this, other
      ensures Equals(other) <==> sendHeader == other.sendHeader
    {
      sendHeader.componentId == other.sendHeader.componentId &&
      sendHeader.sequenceNumber == other.sendHeader.sequenceNumber &&
      sendHeader.transportTimestamp.epochS == other.sendHeader.transportTimestamp.epochS &&
      sendHeader.transportTimestamp.offsetNs == other.sendHeader.transportTimestamp.offsetNs &&
      sendHeader.missedFrames == other.sendHeader.missedFrames
    }
  }

  /** A header from component `id` with sequence number `sn`, as the tests send them. */
  function From(id: U16, sn: U16): HeaderElement
  {
    HeaderElement(id, sn, Timestamp(0, 0), 0)
  }

  /** The tracker of component `id` after sequence number `sn`, having counted `missed` frames. */
  function Seen(id: U16, sn: U16, missed: U32): HeaderElement
  {
    HeaderElement(id, sn, Timestamp(0, 0), missed)
  }

  /** Tracking a header from a producer that has the tracker at `i`. */
  lemma TrackKnown(hs: seq<HeaderElement>, e: HeaderElement, i: nat)
    requires Trackers(hs) && i < |hs| && hs[i].componentId == e.componentId
    ensures Track(hs, e).Tracked? && Track(hs, e).at == i
    ensures Track(hs, e).trackers == hs[i := hs[i].(missedFrames := Accumulate(hs[i].missedFrames, Missed(hs[i].sequenceNumber, e.sequenceNumber)),
                                                   sequenceNumber := e.sequenceNumber, transportTimestamp := e.transportTimestamp)]
  {
    var k := Find(hs, e.componentId);
    assert k < |hs|;
    assert hs[k].componentId == hs[i].componentId;
  }

  /**
   * One producer sending sequence numbers 65000, 65500, 65535, 10 and
   * 65500: its tracker counts 0, 499, 533, 543 missed frames, then
   * saturates at 0xFFFF.
   */
  lemma OneProducerScenario()
    ensures Track([], From(7, 65000)) == Tracked([Seen(7, 65000, 0)], 0)
    ensures Track([Seen(7, 65000, 0)], From(7, 65500)) == Tracked([Seen(7, 65500, 499)], 0)
    ensures Track([Seen(7, 65500, 499)], From(7, 65535)) == Tracked([Seen(7, 65535, 533)], 0)
    ensures Track([Seen(7, 65535, 533)], From(7, 10)) == Tracked([Seen(7, 10, 543)], 0)
    ensures Track([Seen(7, 10, 543)], From(7, 65500)) == Tracked([Seen(7, 65500, 0xFFFF)], 0)
  {
    TrackKnown([Seen(7, 65000, 0)], From(7, 65500), 0);
    TrackKnown([Seen(7, 65500, 499)], From(7, 65535), 0);
    TrackKnown([Seen(7, 65535, 533)], From(7, 10), 0);
    TrackKnown([Seen(7, 10, 543)], From(7, 65500), 0);
  }

  /**
   * Two producers interleaved, one sending 10, 15, 56, 413 and the other
   * 52, 86, 96, 555: the trackers after the first four frames, whose
   * counts add up to 0, 0, 4 and 37 missed frames.
   */
  lemma TwoProducerScenarioStart()
    ensures Track([], From(1, 10)) == Tracked([Seen(1, 10, 0)], 0)
    ensures Track([Seen(1, 10, 0)], From(2, 52)) == Tracked([Seen(1, 10, 0), Seen(2, 52, 0)], 1)
    ensures Track([Seen(1, 10, 0), Seen(2, 52, 0)], From(1, 15)) == Tracked([Seen(1, 15, 4), Seen(2, 52, 0)], 0)
    ensures Track([Seen(1, 15, 4), Seen(2, 52, 0)], From(2, 86)) == Tracked([Seen(1, 15, 4), Seen(2, 86, 33)], 1)
  {
    TrackKnown([Seen(1, 10, 0), Seen(2, 52, 0)], From(1, 15), 0);
    TrackKnown([Seen(1, 15, 4), Seen(2, 52, 0)], From(2, 86), 1);
  }

  /** The same two producers over their last four frames: the counts add up to 77, 86, 442 and 900. */
  lemma TwoProducerScenarioEnd()
    ensures Track([Seen(1, 15, 4), Seen(2, 86, 33)], From(1, 56)) == Tracked([Seen(1, 56, 44), Seen(2, 86, 33)], 0)
    ensures Track([Seen(1, 56, 44), Seen(2, 86, 33)], From(2, 96)) == Tracked([Seen(1, 56, 44), Seen(2, 96, 42)], 1)
    ensures Track([Seen(1, 56, 44), Seen(2, 96, 42)], From(1, 413)) == Tracked([Seen(1, 413, 400), Seen(2, 96, 42)], 0)
    ensures Track([Seen(1, 413, 400), Seen(2, 96, 42)], From(2, 555)) == Tracked([Seen(1, 413, 400), Seen(2, 555, 500)], 1)
    ensures TotalMissed([Seen(1, 413, 400), Seen(2, 555, 500)]) == 900
  {
    TrackKnown([Seen(1, 15, 4), Seen(2, 86, 33)], From(1, 56), 0);
    TrackKnown([Seen(1, 56, 44), Seen(2, 86, 33)], From(2, 96), 1);
    TrackKnown([Seen(1, 56, 44), Seen(2, 96, 42)], From(1, 413), 0);
    TrackKnown([Seen(1, 413, 400), Seen(2, 96, 42)], From(2, 555), 1);
  }
}
