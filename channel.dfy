/**
 * The channels of ed247_channel.cpp. A channel owns a frame header, a
 * send buffer and the streams it carries, keyed by UID. A simple channel
 * sends one stream's payload after the header; a multichannel frame is
 * one header followed by a block `[BE16 uid][BE16 size][payload]` for
 * each OUT stream that had something to send.
 *
 * The streams are seen through what the channel asks of them. On the
 * send side each call of a stream's `encode` hands out the next payload
 * queued for it (its backlog), and the stream has outgoing samples as
 * long as its backlog is not empty. On the receive side a stream's
 * `decode` accepts or refuses the payload of its block.
 */
module Channels {
  import opened Types
  import opened Swaps
  import opened FrameHeaders

  /** `sizeof(ed247_uid_t) + sizeof(stream_size_t)`: the UID and size in front of each block. */
  const BLOCK_HEADER: nat := 4

  /** What a channel knows of one of its streams. */
  datatype Port = Port(uid: U16, name: string, out: bool, maxSize: nat)

  /** The UIDs of some ports. */
  function Uids(ports: seq<Port>): set<U16>
  {
    set i | 0 <= i < |ports| :: ports[i].uid
  }

  /** No two streams share a UID. */
  predicate DistinctUids(ports: seq<Port>)
  {
    forall i, j | 0 <= i < j < |ports| :: ports[i].uid != ports[j].uid
  }

  /** The names of some ports, in order. */
  function PortNames(ports: seq<Port>): (ns: seq<string>)
    ensures |ns| == |ports| && forall i | 0 <= i < |ports| :: ns[i] == ports[i].name
  {
    seq(|ports|, i requires 0 <= i < |ports| => ports[i].name)
  }

  /** No name occurs twice. */
  predicate DistinctNames(ns: seq<string>)
  {
    forall i, j | 0 <= i < j < |ns| :: ns[i] != ns[j]
  }

  /** The bytes each stream adds to the buffer capacity: its maximum size, plus a block header in a multichannel. */
  function Room(ports: seq<Port>, simple: bool): nat
  {
    if ports == [] then 0
    else (if simple then 0 else BLOCK_HEADER) + ports[0].maxSize + Room(ports[1..], simple)
  }

  /** The streams of a channel once built, with the buffer capacity; or the UID found twice. */
  datatype Built = Built(ports: seq<Port>, capacity: nat) | DuplicateUid(uid: U16)

  /**
   * The loop of the `Channel` constructor: each configured stream is
   * inserted under its UID, a UID already present raising, and the buffer
   * capacity is the header size plus each stream's share.
   */
  method BuildPorts(configs: seq<Port>, simple: bool, headerSize: nat) returns (r: Built)
    ensures r.DuplicateUid? <==> !DistinctUids(configs)
    ensures r.DuplicateUid? ==> exists i, j | 0 <= i < j < |configs| :: configs[i].uid == configs[j].uid == r.uid
    ensures r.Built? ==> r.ports == configs && r.capacity == headerSize + Room(configs, simple)
  {
    var ports: seq<Port> := [];
    var capacity := headerSize;
    var k := 0;
    assert configs[0..] == configs;
    while k < |configs|
      invariant k <= |configs| && ports == configs[..k] && DistinctUids(ports)
      invariant Uids(ports) == Uids(configs[..k])
      invariant capacity + Room(configs[k..], simple) == headerSize + Room(configs, simple)
    {
      var p := configs[k];
      if p.uid in Uids(ports) {
        var i :| 0 <= i < k && ports[i].uid == p.uid;
        assert configs[i].uid == configs[k].uid;
        return DuplicateUid(p.uid);
      }
      assert configs[..k + 1] == ports + [p];
      assert configs[k..][1..] == configs[k + 1..];
      capacity := capacity + (if simple then 0 else BLOCK_HEADER) + p.maxSize;
      ports := ports + [p];
      k := k + 1;
    }
    assert configs[..k] == configs;
    r := Built(ports, capacity);
  }

  /** A block of a multichannel frame: the UID, the payload size truncated to 16 bits, the payload. */
  function Block(uid: U16, payload: seq<Byte>): (b: seq<Byte>)
    ensures |b| == BLOCK_HEADER + |payload|
  {
    BE16(uid) + BE16(|payload| % 0x1_0000) + payload
  }

  /** A payload sent for, or delivered to, the stream of UID `uid`. */
  datatype Delivery = Delivery(uid: U16, payload: seq<Byte>)

  /** The blocks of a sequence of deliveries, one after the other. */
  function Frame(ds: seq<Delivery>): seq<Byte>
  {
    if ds == [] then [] else Block(ds[0].uid, ds[0].payload) + Frame(ds[1..])
  }

  /** One more block at the end of a frame. */
  lemma {:induction false} FrameSnoc(ds: seq<Delivery>, d: Delivery)
    ensures Frame(ds + [d]) == Frame(ds) + Block(d.uid, d.payload)
    decreases |ds|
  {
    if ds == [] {
      assert Frame([d]) == Block(d.uid, d.payload) + Frame([]);
    } else {
      assert (ds + [d])[1..] == ds[1..] + [d];
      FrameSnoc(ds[1..], d);
    }
  }

  /** A stream the multichannel pass writes: an OUT stream with outgoing samples. */
  predicate Active(p: Port, queued: seq<seq<Byte>>)
  {
    p.out && queued != []
  }

  /**
   * The blocks one multichannel pass writes, from the k-th stream on: the
   * next payload of each active stream, leaving out those that come out
   * empty (a stream whose `encode` returns 0 gets no block).
   */
  function Outgoing(ports: seq<Port>, backlog: seq<seq<seq<Byte>>>, k: nat): seq<Delivery>
    requires |backlog| == |ports| && k <= |ports|
    decreases |ports| - k
  {
    if k == |ports| then []
    else if Active(ports[k], backlog[k]) && backlog[k][0] != [] then
      [Delivery(ports[k].uid, backlog[k][0])] + Outgoing(ports, backlog, k + 1)
    else Outgoing(ports, backlog, k + 1)
  }

  /** The blocks of a pass from an active stream on: its own block, unless its payload is empty, then the rest. */
  lemma OutgoingAt(ports: seq<Port>, backlog: seq<seq<seq<Byte>>>, k: nat)
    requires |backlog| == |ports| && k < |ports| && Active(ports[k], backlog[k])
    ensures Outgoing(ports, backlog, k) ==
      (if backlog[k][0] == [] then [] else [Delivery(ports[k].uid, backlog[k][0])]) + Outgoing(ports, backlog, k + 1)
  {
    if backlog[k][0] == [] {
      assert [] + Outgoing(ports, backlog, k + 1) == Outgoing(ports, backlog, k + 1);
    }
  }

  /** Some stream is active: a multichannel pass writes a header. */
  predicate AnyActive(ports: seq<Port>, backlog: seq<seq<seq<Byte>>>)
    requires |backlog| == |ports|
  {
    exists i | 0 <= i < |ports| :: Active(ports[i], backlog[i])
  }

  /** What is left to send once each stream with outgoing samples handed one out. */
  function Drop(backlog: seq<seq<seq<Byte>>>): (r: seq<seq<seq<Byte>>>)
    ensures |r| == |backlog|
    ensures forall i | 0 <= i < |backlog| :: r[i] == if backlog[i] == [] then [] else backlog[i][1..]
  {
    seq(|backlog|, i requires 0 <= i < |backlog| => if backlog[i] == [] then [] else backlog[i][1..])
  }

  /** The payloads still to send, all streams together. */
  function Pending(backlog: seq<seq<seq<Byte>>>): nat
  {
    if backlog == [] then 0 else |backlog[0]| + Pending(backlog[1..])
  }

  /** A pass leaves fewer payloads to send as soon as one stream had any. */
  lemma {:induction false} DropShrinks(backlog: seq<seq<seq<Byte>>>)
    ensures Pending(Drop(backlog)) <= Pending(backlog)
    ensures (exists i | 0 <= i < |backlog| :: backlog[i] != []) ==> Pending(Drop(backlog)) < Pending(backlog)
    decreases |backlog|
  {
    if backlog != [] {
      assert Drop(backlog)[1..] == Drop(backlog[1..]);
      DropShrinks(backlog[1..]);
      if exists i | 0 <= i < |backlog| :: backlog[i] != [] {
        var i :| 0 <= i < |backlog| && backlog[i] != [];
        if i > 0 { assert backlog[1..][i - 1] != []; }
      }
    }
  }

  /** Some stream still has outgoing samples after this pass: `need_new_packet`. */
  predicate More(backlog: seq<seq<seq<Byte>>>)
  {
    exists i | 0 <= i < |backlog| :: |backlog[i]| > 1
  }

  /** The header a pass writes with sequence number `sn`, nothing when the header is disabled. */
  function HeadBytes(enabled: bool, ecId: U16, sn: U16, transport: bool, now: Timestamp): (r: seq<Byte>)
    ensures |r| == if enabled then HEADER_SIZE else 0
  {
    if enabled then HeaderBytes(ecId, sn, transport, now) else []
  }

  /** The header configuration of a channel, as the specification functions see it. */
  datatype HeaderConfig = HeaderConfig(enabled: bool, ecId: U16, transport: bool)

  /** A pass writes a header: the simple channel's stream, or some OUT stream, has outgoing samples. */
  predicate Fires(simple: bool, ports: seq<Port>, backlog: seq<seq<seq<Byte>>>)
    requires |backlog| == |ports| && (simple ==> |ports| == 1)
  {
    if simple then backlog[0] != [] else AnyActive(ports, backlog)
  }

  /** The bytes one pass puts in the buffer, with sequence number `sn`. */
  function PassFrame(simple: bool, h: HeaderConfig, sn: U16, now: Timestamp, ports: seq<Port>, backlog: seq<seq<seq<Byte>>>): seq<Byte>
    requires |backlog| == |ports| && (simple ==> |ports| == 1)
  {
    if !Fires(simple, ports, backlog) then []
    else
      var body := if simple then backlog[0][0] else Frame(Outgoing(ports, backlog, 0));
      HeadBytes(h.enabled, h.ecId, sn, h.transport, now) + body
  }

  /** The sequence number after a pass. */
  function NextSn(simple: bool, h: HeaderConfig, sn: U16, ports: seq<Port>, backlog: seq<seq<seq<Byte>>>): U16
    requires |backlog| == |ports| && (simple ==> |ports| == 1)
  {
    if Fires(simple, ports, backlog) && h.enabled then (sn + 1) % 0x1_0000 else sn
  }

  /** Only OUT streams have outgoing samples. */
  predicate OnlyOut(ports: seq<Port>, backlog: seq<seq<seq<Byte>>>)
    requires |backlog| == |ports|
  {
    forall i | 0 <= i < |ports| && !ports[i].out :: backlog[i] == []
  }

  /**
   * The frames `encode_and_send` hands to the com interface: one pass
   * after the other, a pass whose buffer stays empty sending nothing,
   * until no stream has outgoing samples left.
   */
  function Transmit(simple: bool, h: HeaderConfig, sn: U16, now: Timestamp, ports: seq<Port>, backlog: seq<seq<seq<Byte>>>): seq<seq<Byte>>
    requires |backlog| == |ports| && (simple ==> |ports| == 1)
    decreases Pending(backlog)
  {
    var frame := PassFrame(simple, h, sn, now, ports, backlog);
    var sent := if frame == [] then [] else [frame];
    if More(backlog) then
      DropShrinks(backlog);
      sent + Transmit(simple, h, NextSn(simple, h, sn, ports, backlog), now, ports, Drop(backlog))
    else sent
  }

  /** `Transmit` one pass at a time: the frame of this pass, if any, then what the later passes send. */
  lemma TransmitStep(simple: bool, h: HeaderConfig, sn: U16, now: Timestamp, ports: seq<Port>, backlog: seq<seq<seq<Byte>>>)
    requires |backlog| == |ports| && (simple ==> |ports| == 1)
    ensures var frame := PassFrame(simple, h, sn, now, ports, backlog);
      Transmit(simple, h, sn, now, ports, backlog) ==
        (if frame == [] then [] else [frame]) +
        (if More(backlog) then Transmit(simple, h, NextSn(simple, h, sn, ports, backlog), now, ports, Drop(backlog)) else [])
  {
  }

  /** With no active stream a pass has no blocks. */
  lemma {:induction false} OutgoingQuiet(ports: seq<Port>, backlog: seq<seq<seq<Byte>>>, k: nat)
    requires |backlog| == |ports| && k <= |ports|
    requires forall i | k <= i < |ports| :: !Active(ports[i], backlog[i])
    ensures Outgoing(ports, backlog, k) == []
    decreases |ports| - k
  {
    if k < |ports| {
      OutgoingQuiet(ports, backlog, k + 1);
    }
  }

  /** A multichannel frame made of a header, with some sequence number, and the blocks of one pass over some backlog. */
  ghost predicate PassShaped(h: HeaderConfig, now: Timestamp, ports: seq<Port>, frame: seq<Byte>)
  {
    exists sn': U16, b: seq<seq<seq<Byte>>> | |b| == |ports| ::
      frame == HeadBytes(h.enabled, h.ecId, sn', h.transport, now) + Frame(Outgoing(ports, b, 0))
  }

  /**
   * Every frame a multichannel sends is a header followed by the blocks
   * of one pass: sending is a sequence of passes, each of which takes one
   * payload from every stream that has one.
   */
  lemma {:induction false} TransmitFrames(h: HeaderConfig, sn: U16, now: Timestamp, ports: seq<Port>, backlog: seq<seq<seq<Byte>>>, f: nat)
    requires |backlog| == |ports| && f < |Transmit(false, h, sn, now, ports, backlog)|
    ensures PassShaped(h, now, ports, Transmit(false, h, sn, now, ports, backlog)[f])
    decreases Pending(backlog)
  {
    var frame := PassFrame(false, h, sn, now, ports, backlog);
    var sent := if frame == [] then [] else [frame];
    TransmitStep(false, h, sn, now, ports, backlog);
    var all := Transmit(false, h, sn, now, ports, backlog);
    if f < |sent| {
      assert Fires(false, ports, backlog);
      assert all[f] == frame == HeadBytes(h.enabled, h.ecId, sn, h.transport, now) + Frame(Outgoing(ports, backlog, 0));
      assert PassShaped(h, now, ports, all[f]);
    } else {
      DropShrinks(backlog);
      var sn' := NextSn(false, h, sn, ports, backlog);
      var later := Transmit(false, h, sn', now, ports, Drop(backlog));
      assert all == sent + later && all[f] == later[f - |sent|];
      TransmitFrames(h, sn', now, ports, Drop(backlog), f - |sent|);
    }
  }

  /** What decoding the blocks of a multichannel frame came to: the payloads handed to known streams, and the result. */
  datatype Demux = Demux(delivered: seq<Delivery>, ok: bool)

  /**
   * The multichannel loop of `decode` from byte `index`: a block header
   * or a payload cut short fails; a block for a UID the channel does not
   * know is skipped; a block refused by its stream stops the decoding.
   */
  function Demultiplex(frame: seq<Byte>, index: nat, uids: set<U16>, accepts: (U16, seq<Byte>) -> bool): Demux
    requires index <= |frame|
    decreases |frame| - index
  {
    if index == |frame| then Demux([], true)
    else if |frame| - index < BLOCK_HEADER then Demux([], false)
    else
      var uid := ReadBE16(frame, index);
      var size := ReadBE16(frame, index + 2);
      if |frame| - (index + BLOCK_HEADER) < size then Demux([], false)
      else
        var payload := frame[index + BLOCK_HEADER..index + BLOCK_HEADER + size];
        if uid !in uids then Demultiplex(frame, index + BLOCK_HEADER + size, uids, accepts)
        else if !accepts(uid, payload) then Demux([Delivery(uid, payload)], false)
        else
          var rest := Demultiplex(frame, index + BLOCK_HEADER + size, uids, accepts);
          Demux([Delivery(uid, payload)] + rest.delivered, rest.ok)
  }

  /** The deliveries a receiver with streams `uids` keeps: those for its own streams. */
  function Known(ds: seq<Delivery>, uids: set<U16>): seq<Delivery>
  {
    if ds == [] then []
    else if ds[0].uid in uids then [ds[0]] + Known(ds[1..], uids)
    else Known(ds[1..], uids)
  }

  /** Payloads that fit the 16-bit size field. */
  predicate Sizable(ds: seq<Delivery>)
  {
    forall i | 0 <= i < |ds| :: |ds[i].payload| < 0x1_0000
  }

  /**
   * The multichannel round trip: decoding the blocks of some deliveries,
   * found after `pre`, hands each payload to its stream when the stream
   * is known, skips the others, and succeeds when every known stream
   * accepts its payload.
   */
  lemma {:induction false} DemultiplexFrame(pre: seq<Byte>, ds: seq<Delivery>, uids: set<U16>, accepts: (U16, seq<Byte>) -> bool)
    requires Sizable(ds)
    requires forall i | 0 <= i < |ds| && ds[i].uid in uids :: accepts(ds[i].uid, ds[i].payload)
    ensures Demultiplex(pre + Frame(ds), |pre|, uids, accepts) == Demux(Known(ds, uids), true)
    decreases |ds|
  {
    if ds == [] {
      assert pre + Frame(ds) == pre;
    } else {
      var d, tail := ds[0], ds[1..];
      var b := Block(d.uid, d.payload);
      assert Sizable(tail) && forall i | 0 <= i < |tail| && tail[i].uid in uids :: accepts(tail[i].uid, tail[i].payload) by {
        forall i | 0 <= i < |tail| ensures tail[i] == ds[i + 1] {
        }
      }
      DemultiplexFrame(pre + b, tail, uids, accepts);
      Associate(pre, b, Frame(tail));
      DemultiplexAfter(pre, ds, uids, accepts);
    }
  }

  /** `DemultiplexCons` where the first block was written: after `pre`, in front of the blocks of the others. */
  lemma DemultiplexAfter(pre: seq<Byte>, ds: seq<Delivery>, uids: set<U16>, accepts: (U16, seq<Byte>) -> bool)
    requires ds != [] && |ds[0].payload| < 0x1_0000 && (ds[0].uid in uids ==> accepts(ds[0].uid, ds[0].payload))
    requires var b := Block(ds[0].uid, ds[0].payload);
      Demultiplex(pre + b + Frame(ds[1..]), |pre + b|, uids, accepts) == Demux(Known(ds[1..], uids), true)
    ensures var b := Block(ds[0].uid, ds[0].payload);
      Demultiplex(pre + b + Frame(ds[1..]), |pre|, uids, accepts) == Demux(Known(ds, uids), true)
  {
    var b := Block(ds[0].uid, ds[0].payload);
    BlockAt(pre, ds[0].uid, ds[0].payload, Frame(ds[1..]));
    DemultiplexCons(pre + b + Frame(ds[1..]), |pre|, |pre + b|, ds, uids, accepts);
  }

  /** The step of `DemultiplexFrame`: the first block at `i` in front of blocks that decode to the known ones among the others. */
  lemma DemultiplexCons(frame: seq<Byte>, i: nat, next: nat, ds: seq<Delivery>, uids: set<U16>, accepts: (U16, seq<Byte>) -> bool)
    requires ds != [] && next == i + BLOCK_HEADER + |ds[0].payload| <= |frame|
    requires ReadBE16(frame, i) == ds[0].uid && ReadBE16(frame, i + 2) == |ds[0].payload|
    requires frame[i + BLOCK_HEADER..next] == ds[0].payload
    requires ds[0].uid in uids ==> accepts(ds[0].uid, ds[0].payload)
    requires Demultiplex(frame, next, uids, accepts) == Demux(Known(ds[1..], uids), true)
    ensures Demultiplex(frame, i, uids, accepts) == Demux(Known(ds, uids), true)
  {
    DemultiplexStep(frame, i, ds[0], uids, accepts);
  }

  /** One block of the multichannel loop: the delivery it holds, then the blocks after it. */
  lemma DemultiplexStep(frame: seq<Byte>, i: nat, d: Delivery, uids: set<U16>, accepts: (U16, seq<Byte>) -> bool)
    requires i + BLOCK_HEADER + |d.payload| <= |frame|
    requires ReadBE16(frame, i) == d.uid && ReadBE16(frame, i + 2) == |d.payload|
    requires frame[i + BLOCK_HEADER..i + BLOCK_HEADER + |d.payload|] == d.payload
    ensures var rest := Demultiplex(frame, i + BLOCK_HEADER + |d.payload|, uids, accepts);
      Demultiplex(frame, i, uids, accepts) ==
        if d.uid !in uids then rest
        else if !accepts(d.uid, d.payload) then Demux([d], false)
        else Demux([d] + rest.delivered, rest.ok)
  {
  }

  /** Where the loop of a multichannel `decode` stands after a block: at the next one, or done with the result. */
  datatype BlockStep = Continue(next: nat, delivered: seq<Delivery>) | Finish(r: Demux)

  /**
   * The loop invariant of a multichannel `decode` begun at `start`: the
   * deliveries so far, followed by what the blocks from `index` on give,
   * are what the whole frame gives.
   */
  ghost predicate Decoding(frame: seq<Byte>, start: nat, index: nat, uids: set<U16>, accepts: (U16, seq<Byte>) -> bool, delivered: seq<Delivery>)
  {
    start <= |frame| && index <= |frame| &&
    var rest := Demultiplex(frame, index, uids, accepts);
    Demultiplex(frame, start, uids, accepts) == Demux(delivered + rest.delivered, rest.ok)
  }

  /**
   * One turn of the loop of a multichannel `decode`: the block at `index`
   * is read; a truncated block header or payload ends the frame as an
   * error, a block for a stream of this channel is delivered (its
   * stream's refusal ending the frame), and any other block is skipped.
   */
  method DecodeBlock(frame: seq<Byte>, index: nat, uids: set<U16>, accepts: (U16, seq<Byte>) -> bool,
                     delivered: seq<Delivery>, ghost start: nat) returns (step: BlockStep)
    requires index < |frame| && Decoding(frame, start, index, uids, accepts, delivered)
    ensures step.Continue? ==> index < step.next && Decoding(frame, start, step.next, uids, accepts, step.delivered)
    ensures step.Finish? ==> step.r == Demultiplex(frame, start, uids, accepts)
  {
    if |frame| - index < BLOCK_HEADER {
      assert delivered + [] == delivered;
      return Finish(Demux(delivered, false));
    }
    var uid := ReadBE16(frame, index);
    var size := ReadBE16(frame, index + 2);
    var next := index + BLOCK_HEADER;
    if |frame| - next < size {
      assert delivered + [] == delivered;
      return Finish(Demux(delivered, false));
    }
    var payload := frame[next..next + size];
    var d := Delivery(uid, payload);
    DemultiplexStep(frame, index, d, uids, accepts);
    if uid !in uids {
      return Continue(next + size, delivered);
    }
    if !accepts(uid, payload) {
      return Finish(Demux(delivered + [d], false));
    }
    Associate(delivered, [d], Demultiplex(frame, next + size, uids, accepts).delivered);
    step := Continue(next + size, delivered + [d]);
  }

  /** Concatenation regroups. */
  lemma Associate<T>(a: seq<T>, b: seq<T>, c: seq<T>)
    ensures a + (b + c) == (a + b) + c
  {
  }

  /** A block read back where it was written: its UID, its size and its payload. */
  lemma BlockAt(pre: seq<Byte>, uid: U16, payload: seq<Byte>, post: seq<Byte>)
    requires |payload| < 0x1_0000
    ensures var frame := pre + Block(uid, payload) + post;
      var i := |pre|;
      i + BLOCK_HEADER + |payload| <= |frame| &&
      ReadBE16(frame, i) == uid && ReadBE16(frame, i + 2) == |payload| &&
      frame[i + BLOCK_HEADER..i + BLOCK_HEADER + |payload|] == payload &&
      i + BLOCK_HEADER + |payload| == |pre + Block(uid, payload)|
  {
    var frame := pre + Block(uid, payload) + post;
    var i := |pre|;
    var n := |payload|;
    Splice(BE16(uid), BE16(n), payload);
    assert frame[i..i + 2] == BE16(uid);
    assert frame[i + 2..i + 4] == BE16(n);
    ReadBE16Inverse(uid, frame, i);
    ReadBE16Inverse(n, frame, i + 2);
    assert frame[i + BLOCK_HEADER..i + BLOCK_HEADER + n] == payload;
  }

  /**
   * A frame of a multichannel, received by a channel with the same header
   * configuration: the header is read back, and the blocks reach the
   * receiver's own streams, as long as those accept them.
   */
  lemma MultichannelRoundTrip(h: HeaderConfig, sn: U16, now: Timestamp, ds: seq<Delivery>, uids: set<U16>,
                              accepts: (U16, seq<Byte>) -> bool, prev: SampleDetails)
    requires Sizable(ds)
    requires forall i | 0 <= i < |ds| && ds[i].uid in uids :: accepts(ds[i].uid, ds[i].payload)
    ensures var frame := HeadBytes(h.enabled, h.ecId, sn, h.transport, now) + Frame(ds);
      (h.enabled ==> ReadHeader(frame, 0, h.transport, prev) == SampleDetails(h.ecId, sn, if h.transport then now else prev.transportTimestamp)) &&
      Demultiplex(frame, if h.enabled then HEADER_SIZE else 0, uids, accepts) == Demux(Known(ds, uids), true)
  {
    var head := HeadBytes(h.enabled, h.ecId, sn, h.transport, now);
    if h.enabled {
      SentThenReceived(h.ecId, sn, h.transport, now, [], Frame(ds), prev);
      assert [] + head + Frame(ds) == head + Frame(ds);
    }
    DemultiplexFrame(head, ds, uids, accepts);
  }

  /**
   * `Channel`: its streams, its header, its send buffer of the capacity
   * the constructor computed, the payloads each stream still has to send,
   * and the frames handed to the com interface.
   */
  /**
   * One pass of `encode_and_send` takes the first frame off what is left
   * to send: after it, what was sent and what a further transmission of
   * the remaining backlog sends still make up `all`, and a pass that asks
   * for another one has strictly less pending.
   */
  lemma SendAdvance(simple: bool, h: HeaderConfig, sn: U16, now: Timestamp, ports: seq<Port>,
                    b: seq<seq<seq<Byte>>>, before: seq<seq<Byte>>, all: seq<seq<Byte>>,
                    more: bool, sn': U16, backlog: seq<seq<seq<Byte>>>, sent: seq<seq<Byte>>)
    requires |b| == |ports| && (simple ==> |ports| == 1)
    requires before + Transmit(simple, h, sn, now, ports, b) == all
    requires backlog == Drop(b) && more == More(b) && sn' == NextSn(simple, h, sn, ports, b)
    requires var frame := PassFrame(simple, h, sn, now, ports, b);
      sent == before + if frame == [] then [] else [frame]
    ensures |backlog| == |ports|
    ensures more ==> sent + Transmit(simple, h, sn', now, ports, backlog) == all && Pending(backlog) < Pending(b)
    ensures !more ==> sent == all && forall i | 0 <= i < |ports| :: backlog[i] == []
  {
    var frame := PassFrame(simple, h, sn, now, ports, b);
    var here: seq<seq<Byte>> := if frame == [] then [] else [frame];
    var later := if more then Transmit(simple, h, sn', now, ports, backlog) else [];
    TransmitStep(simple, h, sn, now, ports, b);
    Regroup(before, here, later, all, sent);
    DropShrinks(b);
    if !more {
      forall i | 0 <= i < |ports| ensures backlog[i] == [] {
        assert |b[i]| <= 1;
      }
    }
  }

  /** Sending the frames one after the other: what was sent so far, then the rest. */
  lemma Regroup<T>(before: seq<T>, here: seq<T>, later: seq<T>, all: seq<T>, sent: seq<T>)
    requires before + (here + later) == all && sent == before + here
    ensures sent + later == all
    ensures later == [] ==> sent == all
  {
    assert sent + later == before + (here + later);
  }

  /**
   * Writing `payload` after room for `head` at `at`, then `head` into that
   * room, leaves `head` and `payload` one after the other there, and
   * nothing before `at` changed.
   */
  lemma WriteUnder<T>(f0: seq<T>, f1: seq<T>, f2: seq<T>, at: nat, head: seq<T>, payload: seq<T>, wrote: bool)
    requires at + |head| + |payload| <= |f0|
    requires f1 == f0[..at + |head|] + payload + f0[at + |head| + |payload|..]
    requires f2 == if wrote then f1[..at] + head + f1[at + |head|..] else f1
    ensures f2[..at] == f0[..at]
    ensures wrote ==> f2[..at + |head| + |payload|] == f0[..at] + head + payload
  {
    assert f1[..at] == f0[..at];
    if wrote {
      assert f2[..at + |head| + |payload|] == f1[..at] + head + f1[at + |head|..at + |head| + |payload|];
    }
  }

  class Channel {
    const name: string
    const simple: bool
    const ports: seq<Port>
    const header: FrameHeader
    const buffer: array<Byte>
    var backlog: seq<seq<seq<Byte>>>
    var sent: seq<seq<Byte>>

    /** The streams' payloads fit their maximum sizes, and the buffer holds the header and every stream's share. */
    ghost predicate Valid()
      reads this
    {
      |backlog| == |ports| && OnlyOut(ports, backlog) &&
      (forall i, j | 0 <= i < |ports| && 0 <= j < |backlog[i]| :: |backlog[i][j]| <= ports[i].maxSize) &&
      (simple ==> |ports| == 1) &&
      buffer.Length == header.Size() + Room(ports, simple)
    }

    /** The header configuration, for the specification functions. */
    function Head(): HeaderConfig
    {
      HeaderConfig(header.enabled, header.ecId, header.transport)
    }

    /** A channel with its streams built and nothing to send. */
    constructor(name: string, simple: bool, ports: seq<Port>, header: FrameHeader)
      requires simple ==> |ports| == 1
      ensures Valid() && fresh(buffer) && buffer.Length == header.Size() + Room(ports, simple)
      ensures this.name == name && this.simple == simple && this.ports == ports && this.header == header
      ensures backlog == seq(|ports|, _ => []) && sent == []
    {
      this.name := name;
      this.simple := simple;
      this.ports := ports;
      this.header := header;
      buffer := new Byte[header.Size() + Room(ports, simple)](_ => 0);
      backlog := seq(|ports|, _ => []);
      sent := [];
    }

    /** An OUT stream of the channel queues a payload to send: a successful `push_sample`. */
    method Queue(i: nat, payload: seq<Byte>)
      requires Valid() && i < |ports| && ports[i].out && |payload| <= ports[i].maxSize
      modifies this`backlog
      ensures Valid() && backlog == old(backlog)[i := old(backlog)[i] + [payload]]
    {
      backlog := backlog[i := backlog[i] + [payload]];
    }

    /** A stream's `encode`: it hands out its next payload. */
    method Take(i: nat) returns (payload: seq<Byte>)
      requires Valid() && i < |ports| && backlog[i] != []
      modifies this`backlog
      ensures Valid() && payload == old(backlog)[i][0] && backlog == old(backlog)[i := old(backlog)[i][1..]]
      ensures |payload| <= ports[i].maxSize
    {
      payload := backlog[i][0];
      backlog := backlog[i := backlog[i][1..]];
    }

    /** `get_stream`: the first stream of that name, or none (the index past the last). */
    method GetStream(streamName: string) returns (i: nat)
      ensures i <= |ports| && (i < |ports| ==> ports[i].name == streamName)
      ensures forall j | 0 <= j < i :: ports[j].name != streamName
    {
      i := 0;
      while i < |ports| && ports[i].name != streamName
        invariant i <= |ports| && forall j | 0 <= j < i :: ports[j].name != streamName
      {
        i := i + 1;
      }
    }

    /** Writes one block at `index`: the payload after room for the UID and size, then, for a payload that is not empty, the UID and size. */
    method WriteBlock(index: nat, uid: U16, payload: seq<Byte>)
      requires index + BLOCK_HEADER + |payload| <= buffer.Length
      modifies buffer
      ensures payload != [] ==> buffer[..index + BLOCK_HEADER + |payload|] == old(buffer[..index]) + Block(uid, payload)
      ensures buffer[..index] == old(buffer[..index])
    {
      ghost var f0 := buffer[..];
      var n := |payload|;
      WriteRange(buffer, index + BLOCK_HEADER, payload);
      ghost var f1 := buffer[..];
      if n > 0 {
        WriteRange(buffer, index, BE16(uid) + BE16(n % 0x1_0000));
        WriteUnder(f0, f1, buffer[..], index, BE16(uid) + BE16(n % 0x1_0000), payload, true);
      } else {
        WriteUnder(f0, f1, f1, index, [], payload, false);
      }
    }

    /** The header at the start of the buffer, written when a pass meets its first stream to send. */
    method OpenFrame(now: Timestamp) returns (index: nat)
      requires Valid()
      modifies buffer, header`sendSn
      ensures index == header.Size() && index <= buffer.Length
      ensures buffer[..index] == HeadBytes(header.enabled, header.ecId, old(header.sendSn), header.transport, now)
      ensures header.sendSn == if header.enabled then (old(header.sendSn) + 1) % 0x1_0000 else old(header.sendSn)
    {
      var w := header.Encode(buffer, 0, now);
      index := header.Size();
      if header.enabled {
        assert buffer[..index] == HeaderBytes(header.ecId, old(header.sendSn), header.transport, now);
      }
    }

    /**
     * The k-th stream's part of a multichannel pass: its `encode` hands out
     * its next payload, written after room for the block header, and a
     * payload that is not empty gets its UID and size in front. The
     * stream's share of the buffer leaves room for all of it.
     */
    method EmitBlock(k: nat, index: nat, ghost head: seq<Byte>, ghost ds: seq<Delivery>)
      returns (next: nat, ghost ds': seq<Delivery>)
      requires Valid() && !simple && k < |ports| && backlog[k] != []
      requires index + Room(ports[k..], false) <= buffer.Length && buffer[..index] == head + Frame(ds)
      modifies buffer
      ensures ds' == ds + (if backlog[k][0] == [] then [] else [Delivery(ports[k].uid, backlog[k][0])])
      ensures next + Room(ports[k + 1..], false) <= buffer.Length && buffer[..next] == head + Frame(ds')
    {
      assert ports[k..][1..] == ports[k + 1..];
      var payload := backlog[k][0];
      WriteBlock(index, ports[k].uid, payload);
      next, ds' := index, ds;
      if payload != [] {
        var d := Delivery(ports[k].uid, payload);
        FrameSnoc(ds, d);
        ds' := ds + [d];
        next := index + BLOCK_HEADER + |payload|;
        assert (head + Frame(ds)) + Block(d.uid, d.payload) == head + (Frame(ds) + Block(d.uid, d.payload));
      }
    }

    /** Where a multichannel pass stands once it went through the first k streams. */
    ghost predicate PassedThrough(k: nat, now: Timestamp, sn0: U16, index: nat, wrote: bool, more: bool,
                                  ds: seq<Delivery>, head: seq<Byte>)
      reads this, header, buffer
    {
      |backlog| == |ports| && !simple && k <= |ports| &&
      (wrote <==> exists j | 0 <= j < k :: Active(ports[j], backlog[j])) &&
      (!wrote ==> index == 0 && ds == [] && head == [] && header.sendSn == sn0) &&
      (wrote ==> head == HeadBytes(header.enabled, header.ecId, sn0, header.transport, now) &&
                 header.sendSn == NextSn(false, Head(), sn0, ports, backlog)) &&
      ds + Outgoing(ports, backlog, k) == Outgoing(ports, backlog, 0) &&
      index + (if wrote then 0 else header.Size()) + Room(ports[k..], false) <= buffer.Length &&
      index <= buffer.Length && buffer[..index] == head + Frame(ds) &&
      (more <==> exists j | 0 <= j < k :: |backlog[j]| > 1)
    }

    /** Where a multichannel pass stands at the k-th stream, active, once the header is written. */
    ghost predicate Opened(k: nat, now: Timestamp, sn0: U16, index: nat, more: bool, ds: seq<Delivery>, head: seq<Byte>)
      reads this, header, buffer
    {
      |backlog| == |ports| && !simple && k < |ports| && Active(ports[k], backlog[k]) &&
      head == HeadBytes(header.enabled, header.ecId, sn0, header.transport, now) &&
      header.sendSn == NextSn(false, Head(), sn0, ports, backlog) &&
      ds + Outgoing(ports, backlog, k) == Outgoing(ports, backlog, 0) &&
      index + Room(ports[k..], false) <= buffer.Length &&
      index <= buffer.Length && buffer[..index] == head + Frame(ds) &&
      (more <==> exists j | 0 <= j < k :: |backlog[j]| > 1)
    }

    /** The header, written when the pass meets its first active stream. */
    method Open(k: nat, now: Timestamp, ghost sn0: U16, index: nat, wrote: bool, more: bool,
                ghost ds: seq<Delivery>, ghost head: seq<Byte>)
      returns (index': nat, ghost head': seq<Byte>)
      requires Valid() && k < |ports| && PassedThrough(k, now, sn0, index, wrote, more, ds, head)
      requires Active(ports[k], backlog[k])
      modifies buffer, header`sendSn
      ensures Opened(k, now, sn0, index', more, ds, head')
    {
      index', head' := index, head;
      if !wrote {
        index' := OpenFrame(now);
        head' := buffer[..index'];
      }
    }

    /** The k-th stream's block, after the header. */
    method Emit(k: nat, now: Timestamp, ghost sn0: U16, index: nat, more: bool,
                ghost ds: seq<Delivery>, ghost head: seq<Byte>)
      returns (index': nat, more': bool, ghost ds': seq<Delivery>)
      requires Valid() && Opened(k, now, sn0, index, more, ds, head)
      modifies buffer
      ensures PassedThrough(k + 1, now, sn0, index', true, more', ds', head)
    {
      index', ds' := EmitBlock(k, index, head, ds);
      more' := more || |backlog[k]| > 1;
      OutgoingAt(ports, backlog, k);
      Associate(ds, if backlog[k][0] == [] then [] else [Delivery(ports[k].uid, backlog[k][0])], Outgoing(ports, backlog, k + 1));
      assert exists j | 0 <= j < k + 1 :: Active(ports[j], backlog[j]) by {
        assert Active(ports[k], backlog[k]);
      }
    }

    /**
     * The body of the multichannel loop for the k-th stream: a stream that
     * is not OUT or has no outgoing sample is skipped; otherwise the header
     * is written if it is the first such stream, then the stream's block.
     */
    method PassStep(k: nat, now: Timestamp, ghost sn0: U16, index: nat, wrote: bool, more: bool,
                    ghost ds: seq<Delivery>, ghost head: seq<Byte>)
      returns (index': nat, wrote': bool, more': bool, ghost ds': seq<Delivery>, ghost head': seq<Byte>)
      requires Valid() && k < |ports| && PassedThrough(k, now, sn0, index, wrote, more, ds, head)
      modifies buffer, header`sendSn
      ensures PassedThrough(k + 1, now, sn0, index', wrote', more', ds', head')
    {
      if !Active(ports[k], backlog[k]) {
        assert ports[k..][1..] == ports[k + 1..];
        return index, wrote, more, ds, head;
      }
      index', head' := Open(k, now, sn0, index, wrote, more, ds, head);
      index', more', ds' := Emit(k, now, sn0, index', more, ds, head');
      wrote' := true;
    }

    /**
     * One pass of the do/while of `encode_and_send` on a multichannel: for
     * each active stream, the header once, then the stream's block; every
     * stream encoded hands out one payload. The buffer always has room:
     * the "buffer is too small" error and the header's own size check
     * cannot fire.
     */
    method MultiPass(now: Timestamp) returns (size: nat, more: bool)
      requires Valid() && !simple
      modifies this`backlog, buffer, header`sendSn
      ensures Valid() && size <= buffer.Length && backlog == Drop(old(backlog))
      ensures buffer[..size] == PassFrame(false, Head(), old(header.sendSn), now, ports, old(backlog))
      ensures header.sendSn == NextSn(false, Head(), old(header.sendSn), ports, old(backlog))
      ensures more <==> More(old(backlog))
    {
      ghost var sn0 := header.sendSn;
      ghost var ds: seq<Delivery> := [];
      ghost var head: seq<Byte> := [];
      var index: nat := 0;
      var wrote := false;
      more := false;
      var k := 0;
      assert ports[0..] == ports;
      while k < |ports|
        invariant Valid() && backlog == old(backlog)
        invariant PassedThrough(k, now, sn0, index, wrote, more, ds, head)
      {
        index, wrote, more, ds, head := PassStep(k, now, sn0, index, wrote, more, ds, head);
        k := k + 1;
      }
      assert ds == Outgoing(ports, backlog, 0) by {
        assert ds + [] == ds;
      }
      if wrote {
        assert Fires(false, ports, backlog);
      } else {
        assert !AnyActive(ports, backlog);
      }
      size := index;
      backlog := Drop(backlog);
    }

    /**
     * One pass of the do/while of `encode_and_send` on a simple channel:
     * when its stream has outgoing samples, the header and the payload its
     * `encode` hands out. The buffer has room for both.
     */
    method SimplePass(now: Timestamp) returns (size: nat, more: bool)
      requires Valid() && simple
      modifies this`backlog, buffer, header`sendSn
      ensures Valid() && size <= buffer.Length && backlog == Drop(old(backlog))
      ensures buffer[..size] == PassFrame(true, Head(), old(header.sendSn), now, ports, old(backlog))
      ensures header.sendSn == NextSn(true, Head(), old(header.sendSn), ports, old(backlog))
      ensures more <==> More(old(backlog))
    {
      if backlog[0] == [] {
        assert backlog == Drop(backlog);
        return 0, false;
      }
      ghost var b0 := backlog;
      var index := OpenFrame(now);
      ghost var head := buffer[..index];
      var payload := backlog[0][0];
      assert |payload| <= ports[0].maxSize && Room(ports, true) == ports[0].maxSize;
      WriteRange(buffer, index, payload);
      size := index + |payload|;
      assert buffer[..size] == head + payload;
      more := |backlog[0]| > 1;
      backlog := Drop(backlog);
    }

    /** One pass, simple or multichannel, and the frame it sends when its buffer is not empty. */
    method SendPass(now: Timestamp) returns (more: bool)
      requires Valid()
      modifies this`backlog, this`sent, buffer, header`sendSn
      ensures Valid() && backlog == Drop(old(backlog)) && more == More(old(backlog))
      ensures header.sendSn == NextSn(simple, Head(), old(header.sendSn), ports, old(backlog))
      ensures var frame := PassFrame(simple, Head(), old(header.sendSn), now, ports, old(backlog));
        sent == old(sent) + if frame == [] then [] else [frame]
    {
      var size;
      if simple {
        size, more := SimplePass(now);
      } else {
        size, more := MultiPass(now);
      }
      if size > 0 {
        sent := sent + [buffer[..size]];
      }
    }

    /** What `encode_and_send` has sent, and has still to send, of the frames `all`. */
    ghost predicate Sending(all: seq<seq<Byte>>, now: Timestamp, more: bool)
      reads this, header
    {
      |backlog| == |ports| && (simple ==> |ports| == 1) &&
      (more ==> sent + Transmit(simple, Head(), header.sendSn, now, ports, backlog) == all) &&
      (!more ==> sent == all && forall i | 0 <= i < |ports| :: backlog[i] == [])
    }

    /** The body of the do/while of `encode_and_send`: one pass, and whether another one is needed. */
    method SendStep(now: Timestamp, ghost all: seq<seq<Byte>>) returns (more: bool)
      requires Valid() && Sending(all, now, true)
      modifies this`backlog, this`sent, buffer, header`sendSn
      ensures Valid() && Sending(all, now, more)
      ensures more ==> Pending(backlog) < old(Pending(backlog))
    {
      ghost var b, sn, before := backlog, header.sendSn, sent;
      more := SendPass(now);
      SendAdvance(simple, Head(), sn, now, ports, b, before, all, more, header.sendSn, backlog, sent);
    }

    /**
     * `encode_and_send`: passes until no stream has outgoing samples left,
     * each buffer that is not empty handed to the com interface. It sends
     * the frames `Transmit` describes and drains every stream.
     */
    method EncodeAndSend(now: Timestamp)
      requires Valid()
      modifies this`backlog, this`sent, buffer, header`sendSn
      ensures Valid() && forall i | 0 <= i < |ports| :: backlog[i] == []
      ensures sent == old(sent) + Transmit(simple, Head(), old(header.sendSn), now, ports, old(backlog))
    {
      ghost var all := sent + Transmit(simple, Head(), header.sendSn, now, ports, backlog);
      var more := true;
      while more
        invariant Valid() && Sending(all, now, more)
        decreases more, Pending(backlog)
      {
        more := SendStep(now, all);
      }
    }

    /**
     * `decode`: the header, then either the whole rest of the frame for
     * the simple channel's stream, or the blocks of a multichannel frame,
     * `accepts` standing for what each stream's own `decode` answers.
     */
    method Decode(frame: seq<Byte>, accepts: (U16, seq<Byte>) -> bool) returns (r: Demux)
      requires Valid()
      modifies header`recvDetails
      ensures header.enabled && |frame| < HEADER_SIZE ==> r == Demux([], false) && header.recvDetails == old(header.recvDetails)
      ensures !(header.enabled && |frame| < HEADER_SIZE) ==>
        header.recvDetails == if header.enabled then ReadHeader(frame, 0, header.transport, old(header.recvDetails)) else old(header.recvDetails)
      ensures !(header.enabled && |frame| < HEADER_SIZE) && simple ==>
        r == Demux([Delivery(ports[0].uid, frame[header.Size()..])], accepts(ports[0].uid, frame[header.Size()..]))
      ensures !(header.enabled && |frame| < HEADER_SIZE) && !simple ==> r == Demultiplex(frame, header.Size(), Uids(ports), accepts)
    {
      var ok, index := header.Decode(frame, 0);
      if !ok {
        return Demux([], false);
      }
      if simple {
        var payload := frame[index..];
        return Demux([Delivery(ports[0].uid, payload)], accepts(ports[0].uid, payload));
      }
      var uids := Uids(ports);
      var delivered: seq<Delivery> := [];
      ghost var details := header.recvDetails;
      ghost var start := index;
      assert delivered + Demultiplex(frame, index, uids, accepts).delivered == Demultiplex(frame, index, uids, accepts).delivered;
      while index < |frame|
        invariant header.recvDetails == details && Decoding(frame, start, index, uids, accepts, delivered)
        decreases |frame| - index
      {
        var step := DecodeBlock(frame, index, uids, accepts, delivered, start);
        if step.Finish? {
          return step.r;
        }
        index, delivered := step.next, step.delivered;
      }
      r := Demux(delivered, true);
      assert delivered + [] == delivered;
    }
  }

  /** `ChannelSet`: the channels of a context, by name. */
  class ChannelSet {
    var channels: seq<Channel>
    /** The names in the context's stream set, which every channel's creation extends. */
    var streams: seq<string>

    /** The names of the channels, in creation order. */
    function Names(): (ns: seq<string>)
      reads this
      ensures |ns| == |channels| && forall i | 0 <= i < |channels| :: ns[i] == channels[i].name
    {
      seq(|channels|, i requires 0 <= i < |channels| reads this => channels[i].name)
    }

    /** Channels are distinct objects with distinct names, buffers and headers, each valid; stream names are distinct. */
    ghost predicate Valid()
      reads this, channels
    {
      (forall i, j | 0 <= i < j < |channels| ::
        channels[i] != channels[j] && channels[i].name != channels[j].name &&
        channels[i].buffer != channels[j].buffer && channels[i].header != channels[j].header) &&
      (forall i | 0 <= i < |channels| :: channels[i].Valid()) &&
      DistinctNames(streams)
    }

    /** An empty set of channels, and an empty stream set. */
    constructor()
      ensures Valid() && channels == [] && streams == []
    {
      channels := [];
      streams := [];
    }

    /**
     * `create`: the channel is built, which registers each stream in the
     * context's stream set (raising on a name already there) and in the
     * channel (raising on a UID used twice), and then registered under its
     * name (raising on a name already registered).
     */
    method Create(name: string, simple: bool, configs: seq<Port>, enabled: bool, transport: bool, ecId: U16)
      returns (c: Channel?)
      requires Valid() && (simple ==> |configs| == 1)
      modifies this
      ensures Valid()
      ensures c == null <==>
        !DistinctNames(old(streams) + PortNames(configs)) || !DistinctUids(configs) || name in old(Names())
      ensures c == null ==> channels == old(channels)
      ensures c != null ==> streams == old(streams) + PortNames(configs)
      ensures c != null ==> fresh(c) && fresh(c.header) && channels == old(channels) + [c]
      ensures c != null ==> c.name == name && c.simple == simple && c.ports == configs && c.sent == []
      ensures c != null ==> c.backlog == seq(|configs|, _ => [])
      ensures c != null ==> c.header.enabled == enabled && c.header.transport == transport && c.header.ecId == ecId
      ensures c != null ==> c.header.sendSn == 0 && c.header.recvDetails == DEFAULT_DETAILS
    {
      var header := new FrameHeader(enabled, transport, ecId);
      var registered := RegisterStreams(configs);
      if !registered {
        return null;
      }
      var built := BuildPorts(configs, simple, header.Size());
      if built.DuplicateUid? {
        return null;
      }
      c := new Channel(name, simple, built.ports, header);
      var i := Find(name);
      if i < |channels| {
        return null;
      }
      channels := channels + [c];
    }

    /**
     * The stream set's `create` for each stream of a channel, in order:
     * a name already in the set raises, any other joins it.
     */
    method RegisterStreams(ports: seq<Port>) returns (ok: bool)
      requires DistinctNames(streams)
      modifies this
      ensures channels == old(channels) && DistinctNames(streams)
      ensures ok <==> DistinctNames(old(streams) + PortNames(ports))
      ensures ok ==> streams == old(streams) + PortNames(ports)
    {
      var k := 0;
      while k < |ports|
        invariant k <= |ports| && channels == old(channels)
        invariant streams == old(streams) + PortNames(ports)[..k] && DistinctNames(streams)
      {
        var name := ports[k].name;
        if name in streams {
          var j :| 0 <= j < |streams| && streams[j] == name;
          ghost var all := old(streams) + PortNames(ports);
          assert all[j] == name && all[|old(streams)| + k] == name;
          return false;
        }
        assert PortNames(ports)[..k + 1] == PortNames(ports)[..k] + [name];
        streams := streams + [name];
        k := k + 1;
      }
      assert PortNames(ports)[..k] == PortNames(ports);
      ok := true;
    }

    /** The index of the channel of that name, or the count when there is none. */
    method Find(name: string) returns (i: nat)
      ensures i <= |channels| && (i < |channels| <==> name in Names())
      ensures i < |channels| ==> channels[i].name == name
    {
      i := 0;
      while i < |channels| && channels[i].name != name
        invariant i <= |channels| && forall j | 0 <= j < i :: channels[j].name != name
      {
        i := i + 1;
      }
    }

    /** `get`: the channel of that name, null when there is none. */
    method Get(name: string) returns (c: Channel?)
      ensures c == null <==> name !in Names()
      ensures c != null ==> c in channels && c.name == name
    {
      var i := Find(name);
      c := if i < |channels| then channels[i] else null;
    }
  }
}
