/**
 * The frame header of ed247_frame_header.cpp: twelve bytes in front of
 * every frame a channel sends, holding the component identifier, a
 * 16-bit sequence number and the transport timestamp, all big-endian.
 * A channel whose header is disabled writes and reads nothing.
 */
module FrameHeaders {
  import opened Types
  import opened Swaps

  /** `header_size`: two 16-bit fields and the two 32-bit timestamp words. */
  const HEADER_SIZE: nat := 12

  /** `n` zero bytes, what `memset(.., 0, n)` leaves. */
  function Zeros(n: nat): (r: seq<Byte>)
    ensures |r| == n && forall i | 0 <= i < n :: r[i] == 0
  {
    seq(n, _ => 0)
  }

  /** The timestamp part of a header: the transport timestamp when it is enabled, zeros otherwise. */
  function StampBytes(transport: bool, now: Timestamp): (r: seq<Byte>)
    ensures |r| == 8
  {
    if transport then BE32(now.epochS) + BE32(now.offsetNs) else Zeros(8)
  }

  /** The twelve header bytes for component `ecId` and sequence number `sn`. */
  function HeaderBytes(ecId: U16, sn: U16, transport: bool, now: Timestamp): (r: seq<Byte>)
    ensures |r| == HEADER_SIZE
  {
    BE16(ecId) + BE16(sn) + StampBytes(transport, now)
  }

  /**
   * What `decode` makes of the twelve bytes at `i`: the component
   * identifier, the sequence number and, when transport timestamps are
   * enabled, the timestamp; otherwise the timestamp received before stays.
   */
  function ReadHeader(frame: seq<Byte>, i: nat, transport: bool, prev: SampleDetails): SampleDetails
    requires i + HEADER_SIZE <= |frame|
  {
    SampleDetails(ReadBE16(frame, i), ReadBE16(frame, i + 2),
      if transport then Timestamp(ReadBE32(frame, i + 4), ReadBE32(frame, i + 8)) else prev.transportTimestamp)
  }

  /** Reading a header back gives the identifier, the sequence number and the enabled timestamp written. */
  lemma HeaderRoundTrip(ecId: U16, sn: U16, transport: bool, now: Timestamp, frame: seq<Byte>, i: nat, prev: SampleDetails)
    requires i + HEADER_SIZE <= |frame| && frame[i..i + HEADER_SIZE] == HeaderBytes(ecId, sn, transport, now)
    ensures ReadHeader(frame, i, transport, prev)
      == SampleDetails(ecId, sn, if transport then now else prev.transportTimestamp)
  {
    var h := frame[i..i + HEADER_SIZE];
    var stamp := StampBytes(transport, now);
    Splice(BE16(ecId), BE16(sn), stamp);
    SliceWithin(frame, i, h, 0, 2);
    SliceWithin(frame, i, h, 2, 4);
    ReadBE16Inverse(ecId, frame, i);
    ReadBE16Inverse(sn, frame, i + 2);
    if transport {
      SliceWithin(frame, i, h, 4, 12);
      Splice(BE32(now.epochS), BE32(now.offsetNs), []);
      SliceWithin(frame, i + 4, stamp, 0, 4);
      SliceWithin(frame, i + 4, stamp, 4, 8);
      ReadBE32Inverse(now.epochS, frame, i + 4);
      ReadBE32Inverse(now.offsetNs, frame, i + 8);
    }
  }

  /** What an `encode` came to: the index past the header, or the error raised when it does not fit. */
  datatype HeaderWrite = Wrote(next: nat) | NoRoom

  /** `FrameHeader`: the send sequence number and the details of the last header received. */
  class FrameHeader {
    const enabled: bool
    const transport: bool
    const ecId: U16
    var sendSn: U16
    var recvDetails: SampleDetails

    /** A new header sends sequence number 0 first and has received nothing. */
    constructor(enabled: bool, transport: bool, ecId: U16)
      ensures this.enabled == enabled && this.transport == transport && this.ecId == ecId
      ensures sendSn == 0 && recvDetails == DEFAULT_DETAILS
    {
      this.enabled := enabled;
      this.transport := transport;
      this.ecId := ecId;
      sendSn := 0;
      recvDetails := DEFAULT_DETAILS;
    }

    /** `get_size`: the bytes the header takes in a frame. */
    function Size(): nat
    {
      if enabled then HEADER_SIZE else 0
    }

    /**
     * `encode` at `index` of a frame of `frame.Length` bytes, `now` being
     * the transport timestamp the clock gives. It raises, writing
     * nothing, when fewer than twelve bytes remain; otherwise it writes
     * the header, moves the index past it and counts the sequence number
     * up modulo 2^16.
     */
    method Encode(frame: array<Byte>, index: nat, now: Timestamp) returns (r: HeaderWrite)
      requires index <= frame.Length
      modifies this`sendSn, frame
      ensures !enabled ==> r == Wrote(index) && frame[..] == old(frame[..]) && sendSn == old(sendSn)
      ensures enabled && frame.Length - index < HEADER_SIZE ==>
        r == NoRoom && frame[..] == old(frame[..]) && sendSn == old(sendSn)
      ensures enabled && frame.Length - index >= HEADER_SIZE ==>
        r == Wrote(index + Size()) && sendSn == (old(sendSn) + 1) % 0x1_0000 &&
        frame[..] == old(frame[..index]) + HeaderBytes(ecId, old(sendSn), transport, now) + old(frame[index + HEADER_SIZE..])
    {
      if !enabled {
        return Wrote(index);
      }
      if frame.Length - index < HEADER_SIZE {
        return NoRoom;
      }
      WriteRange(frame, index, HeaderBytes(ecId, sendSn, transport, now));
      sendSn := (sendSn + 1) % 0x1_0000;
      r := Wrote(index + HEADER_SIZE);
    }

    /**
     * `decode` at `index`: fails, changing nothing, when fewer than twelve
     * bytes remain; otherwise records what the header says and moves the
     * index past it.
     */
    method Decode(frame: seq<Byte>, index: nat) returns (ok: bool, next: nat)
      requires index <= |frame|
      modifies this`recvDetails
      ensures !enabled ==> ok && next == index && recvDetails == old(recvDetails)
      ensures enabled && |frame| - index < HEADER_SIZE ==> !ok && next == index && recvDetails == old(recvDetails)
      ensures enabled && |frame| - index >= HEADER_SIZE ==>
        ok && next == index + Size() && recvDetails == ReadHeader(frame, index, transport, old(recvDetails))
    {
      if !enabled {
        return true, index;
      }
      if |frame| - index < HEADER_SIZE {
        return false, index;
      }
      var stamp := recvDetails.transportTimestamp;
      if transport {
        stamp := Timestamp(ReadBE32(frame, index + 4), ReadBE32(frame, index + 8));
      }
      recvDetails := SampleDetails(ReadBE16(frame, index), ReadBE16(frame, index + 2), stamp);
      ok, next := true, index + HEADER_SIZE;
    }
  }

  /**
   * A header sent by one channel and received by another with the same
   * configuration: the receiver learns the sender's identifier, the
   * sequence number it sent and, when enabled, its transport timestamp.
   */
  lemma SentThenReceived(ecId: U16, sn: U16, transport: bool, now: Timestamp, before: seq<Byte>, after: seq<Byte>, prev: SampleDetails)
    ensures ReadHeader(before + HeaderBytes(ecId, sn, transport, now) + after, |before|, transport, prev)
      == SampleDetails(ecId, sn, if transport then now else prev.transportTimestamp)
  {
    var frame := before + HeaderBytes(ecId, sn, transport, now) + after;
    Splice(before, HeaderBytes(ecId, sn, transport, now), after);
    HeaderRoundTrip(ecId, sn, transport, now, frame, |before|, prev);
  }
}
