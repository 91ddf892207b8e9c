/**
 * The context of ed247_context.cpp: the channels an ECIC configuration
 * declares, created in order at load time, the sending of every pushed
 * sample, and the waits, which the receiver set answers.
 */
module Contexts {
  import opened Types
  import opened FrameHeaders
  import opened Channels
  import ComInterfaces

  /** `xml::Channel`: what the context needs of one channel of the configuration. */
  datatype ChannelConfig = ChannelConfig(name: string, simple: bool, ports: seq<Port>, enabled: bool, transport: bool)

  /** The stream names of every channel, channel after channel: what the context's stream set receives. */
  function StreamNames(configs: seq<ChannelConfig>): seq<string>
  {
    if configs == [] then [] else StreamNames(configs[..|configs| - 1]) + PortNames(configs[|configs| - 1].ports)
  }

  /** The stream names of the first channels start the stream names of all of them. */
  lemma {:induction false} StreamNamesPrefix(configs: seq<ChannelConfig>, m: nat)
    requires m <= |configs|
    ensures StreamNames(configs[..m]) <= StreamNames(configs)
  {
    if m < |configs| {
      var init := configs[..|configs| - 1];
      assert init[..m] == configs[..m];
      StreamNamesPrefix(init, m);
    } else {
      assert configs[..m] == configs;
    }
  }

  /**
   * No stream name occurs twice in the whole context, every channel's
   * stream UIDs are distinct, and no two channels share a name.
   */
  predicate Loadable(configs: seq<ChannelConfig>)
  {
    DistinctNames(StreamNames(configs)) &&
    (forall i | 0 <= i < |configs| :: DistinctUids(configs[i].ports)) &&
    (forall i, j | 0 <= i < j < |configs| :: configs[i].name != configs[j].name)
  }

  /** `c` is the channel `config` gives, as created and before anything is sent. */
  ghost predicate Created(c: Channel, config: ChannelConfig, ecId: U16)
    reads c, c.header
  {
    c.name == config.name && c.simple == config.simple && c.ports == config.ports &&
    c.header.enabled == config.enabled && c.header.transport == config.transport && c.header.ecId == ecId &&
    c.header.sendSn == 0 && c.backlog == seq(|config.ports|, _ => []) && c.sent == []
  }

  /** What sending changes in a channel: the frames sent, the next sequence number and the samples queued. */
  datatype ChannelState = ChannelState(sent: seq<seq<Byte>>, sn: U16, backlog: seq<seq<seq<Byte>>>)

  ghost function StateOf(c: Channel): ChannelState
    reads c, c.header
  {
    ChannelState(c.sent, c.header.sendSn, c.backlog)
  }

  /**
   * What one `encode_and_send` of `c` at `now` makes of state `s0`: every
   * queued sample sent, in the frames the passes over the streams give.
   */
  predicate Flushed(c: Channel, s0: ChannelState, s1: ChannelState, now: Timestamp)
  {
    |s0.backlog| == |c.ports| && (c.simple ==> |c.ports| == 1) &&
    |s1.backlog| == |c.ports| && (forall i | 0 <= i < |c.ports| :: s1.backlog[i] == []) &&
    s1.sent == s0.sent + Transmit(c.simple, c.Head(), s0.sn, now, c.ports, s0.backlog)
  }

  /** Channels that share no object, name, buffer or header. */
  predicate Separate(chs: seq<Channel>)
  {
    forall i, j | 0 <= i < j < |chs| ::
      chs[i] != chs[j] && chs[i].name != chs[j].name && chs[i].buffer != chs[j].buffer && chs[i].header != chs[j].header
  }

  /** In separate channels, sending on one changes no other. */
  lemma Apart(chs: seq<Channel>, k: nat)
    requires k < |chs| && Separate(chs)
    ensures forall i | 0 <= i < |chs| && i != k :: chs[i] != chs[k] && chs[i].header != chs[k].header
  {
    forall i | 0 <= i < |chs| && i != k
      ensures chs[i] != chs[k] && chs[i].header != chs[k].header
    {
      if i < k {
        assert chs[i] != chs[k] && chs[i].header != chs[k].header;
      } else {
        assert chs[k] != chs[i] && chs[k].header != chs[i].header;
      }
    }
  }

  /**
   * `send_pushed_samples` up to channel `k`: the channels before it sent
   * everything they held in `before` and now hold `after`, the others are
   * as they were.
   */
  ghost predicate Flushing(chs: seq<Channel>, k: nat, before: seq<ChannelState>, after: seq<ChannelState>, now: Timestamp)
    reads chs, set c | c in chs :: c.header
  {
    k <= |chs| && |before| == |chs| && |after| == k && Separate(chs) &&
    (forall i | 0 <= i < k :: chs[i].Valid() && StateOf(chs[i]) == after[i] && Flushed(chs[i], before[i], after[i], now)) &&
    (forall i | k <= i < |chs| :: chs[i].Valid() && StateOf(chs[i]) == before[i])
  }

  /** Before `send_pushed_samples`, the channels of a valid set hold what they hold. */
  lemma FlushStart(cs: ChannelSet, before: seq<ChannelState>, now: Timestamp)
    requires cs.Valid() && |before| == |cs.channels|
    requires forall i | 0 <= i < |cs.channels| :: before[i] == StateOf(cs.channels[i])
    ensures Flushing(cs.channels, 0, before, [], now)
  {
  }

  /** After `send_pushed_samples`, the set is still valid and every channel has flushed. */
  lemma FlushedAll(cs: ChannelSet, before: seq<ChannelState>, after: seq<ChannelState>, now: Timestamp)
    requires Flushing(cs.channels, |cs.channels|, before, after, now) && DistinctNames(cs.streams)
    ensures cs.Valid()
    ensures forall i | 0 <= i < |cs.channels| :: Flushed(cs.channels[i], before[i], StateOf(cs.channels[i]), now)
  {
  }

  /** One turn of `send_pushed_samples`: channel `k` encodes and sends. */
  method Flush(chs: seq<Channel>, k: nat, ghost before: seq<ChannelState>, ghost after: seq<ChannelState>, now: Timestamp)
    returns (ghost after': seq<ChannelState>)
    requires k < |chs| && Flushing(chs, k, before, after, now)
    modifies chs[k], chs[k].buffer, chs[k].header
    ensures Flushing(chs, k + 1, before, after', now)
  {
    Apart(chs, k);
    chs[k].EncodeAndSend(now);
    after' := after + [StateOf(chs[k])];
  }

  /** The channels of `configs[..k]` created into `cs`. */
  ghost predicate Loading(cs: ChannelSet, configs: seq<ChannelConfig>, k: nat, ecId: U16)
    reads cs, cs.channels, set c | c in cs.channels :: c.header
  {
    cs.Valid() && k <= |configs| && |cs.channels| == k && Loadable(configs[..k]) && cs.streams == StreamNames(configs[..k]) &&
    forall i | 0 <= i < k :: Created(cs.channels[i], configs[i], ecId)
  }

  /** The channel and stream names of `configs[..k]` decide whether `configs[k]` can follow them. */
  lemma LoadableStep(configs: seq<ChannelConfig>, k: nat, names: seq<string>, streams: seq<string>)
    requires k < |configs| && Loadable(configs[..k]) && streams == StreamNames(configs[..k])
    requires |names| == k && forall i | 0 <= i < k :: names[i] == configs[i].name
    ensures StreamNames(configs[..k + 1]) == streams + PortNames(configs[k].ports)
    ensures (DistinctNames(streams + PortNames(configs[k].ports)) && DistinctUids(configs[k].ports) &&
      configs[k].name !in names) ==> Loadable(configs[..k + 1])
    ensures (!DistinctNames(streams + PortNames(configs[k].ports)) || !DistinctUids(configs[k].ports) ||
      configs[k].name in names) ==> !Loadable(configs)
  {
    var p := configs[..k + 1];
    assert p[..k] == configs[..k];
    if DistinctUids(configs[k].ports) && configs[k].name !in names {
      forall i | 0 <= i < k + 1 ensures DistinctUids(p[i].ports) {
        if i < k {
          assert p[i] == configs[..k][i];
        }
      }
      forall i, j | 0 <= i < j < k + 1 ensures p[i].name != p[j].name {
        if j < k {
          assert p[i] == configs[..k][i] && p[j] == configs[..k][j];
        } else {
          assert p[i].name == names[i];
        }
      }
    }
    if configs[k].name in names {
      var j :| 0 <= j < k && names[j] == configs[k].name;
      assert configs[j].name == configs[k].name;
    }
    StreamNamesStep(configs, k);
  }

  /** The stream names of `configs[..k + 1]` add those of channel `k`, and a repeat among them repeats in the whole. */
  lemma StreamNamesStep(configs: seq<ChannelConfig>, k: nat)
    requires k < |configs|
    ensures StreamNames(configs[..k + 1]) == StreamNames(configs[..k]) + PortNames(configs[k].ports)
    ensures !DistinctNames(StreamNames(configs[..k + 1])) ==> !DistinctNames(StreamNames(configs))
  {
    var p := configs[..k + 1];
    assert p[..k] == configs[..k];
    if !DistinctNames(StreamNames(p)) {
      StreamNamesPrefix(configs, k + 1);
      var all := StreamNames(configs);
      var i, j :| 0 <= i < j < |StreamNames(p)| && StreamNames(p)[i] == StreamNames(p)[j];
      assert all[i] == all[j];
    }
  }

  /** One turn of the constructor's loop: the channel of `configs[k]` created, or false when `create` raises. */
  method CreateChannel(cs: ChannelSet, configs: seq<ChannelConfig>, k: nat, ecId: U16) returns (ok: bool)
    requires k < |configs| && Loading(cs, configs, k, ecId)
    requires configs[k].simple ==> |configs[k].ports| == 1
    modifies cs
    ensures cs.Valid()
    ensures ok ==> Loading(cs, configs, k + 1, ecId) && fresh(cs.channels[k]) && cs.channels == old(cs.channels) + [cs.channels[k]]
    ensures !ok ==> !Loadable(configs)
  {
    var config := configs[k];
    ghost var names := cs.Names();
    LoadableStep(configs, k, names, cs.streams);
    var c := cs.Create(config.name, config.simple, config.ports, config.enabled, config.transport, ecId);
    ok := c != null;
  }

  /** The channels of the configuration created into `cs` in order, until one cannot be. */
  method LoadChannels(cs: ChannelSet, configs: seq<ChannelConfig>, ecId: U16) returns (ok: bool)
    requires cs.Valid() && cs.channels == [] && cs.streams == []
    requires forall i | 0 <= i < |configs| :: configs[i].simple ==> |configs[i].ports| == 1
    modifies cs
    ensures cs.Valid()
    ensures ok <==> Loadable(configs)
    ensures ok ==> |cs.channels| == |configs|
    ensures ok ==> forall i | 0 <= i < |configs| :: fresh(cs.channels[i]) && Created(cs.channels[i], configs[i], ecId)
  {
    var k := 0;
    assert configs[..0] == [];
    while k < |configs|
      invariant Loading(cs, configs, k, ecId)
      invariant forall i | 0 <= i < |cs.channels| :: fresh(cs.channels[i])
    {
      ok := CreateChannel(cs, configs, k, ecId);
      if !ok {
        return;
      }
      k := k + 1;
    }
    LoadedAll(cs, configs, ecId);
    ok := true;
  }

  /** Once every configuration is loaded, the whole configuration was loadable and every channel is created. */
  lemma LoadedAll(cs: ChannelSet, configs: seq<ChannelConfig>, ecId: U16)
    requires Loading(cs, configs, |configs|, ecId)
    ensures Loadable(configs) && |cs.channels| == |configs|
    ensures forall i | 0 <= i < |configs| :: Created(cs.channels[i], configs[i], ecId)
  {
    assert configs[..|configs|] == configs;
  }

  /** `Context`: the component identifier, the channels and the receiver set. */
  class Context {
    const ecId: U16
    const channelSet: ChannelSet
    const receivers: ComInterfaces.ReceiverSet

    ghost predicate Valid()
      reads this, channelSet, channelSet.channels, receivers
    {
      channelSet.Valid() && receivers.Valid()
    }

    /** A context with no channel yet. */
    constructor(ecId: U16)
      ensures Valid() && this.ecId == ecId && channelSet.channels == [] && channelSet.streams == [] && receivers.receivers == []
      ensures fresh(channelSet) && fresh(receivers)
    {
      this.ecId := ecId;
      channelSet := new ChannelSet();
      receivers := new ComInterfaces.ReceiverSet();
    }

    /**
     * The constructor's loop: one channel per channel of the
     * configuration, in order. A channel whose UIDs repeat, whose name an
     * earlier channel has, or with a stream whose name is already in the
     * context, raises, here answers false.
     */
    method Load(configs: seq<ChannelConfig>) returns (ok: bool)
      requires Valid() && channelSet.channels == [] && channelSet.streams == []
      requires forall i | 0 <= i < |configs| :: configs[i].simple ==> |configs[i].ports| == 1
      modifies channelSet
      ensures Valid()
      ensures ok <==> Loadable(configs)
      ensures ok ==> |channelSet.channels| == |configs|
      ensures ok ==> forall i | 0 <= i < |configs| :: fresh(channelSet.channels[i]) && Created(channelSet.channels[i], configs[i], ecId)
    {
      ok := LoadChannels(channelSet, configs, ecId);
    }

    /**
     * `send_pushed_samples`: every channel encodes and sends what its
     * streams hold, `now` being the time the clock gives.
     */
    method SendPushedSamples(now: Timestamp)
      requires Valid()
      modifies set c | c in channelSet.channels, set c | c in channelSet.channels :: c.buffer,
        set c | c in channelSet.channels :: c.header
      ensures Valid()
      ensures forall i | 0 <= i < |channelSet.channels| ::
        Flushed(channelSet.channels[i], old(StateOf(channelSet.channels[i])), StateOf(channelSet.channels[i]), now)
    {
      var chs := channelSet.channels;
      ghost var before := seq(|chs|, i requires 0 <= i < |chs| reads chs, set c | c in chs :: c.header => StateOf(chs[i]));
      ghost var after: seq<ChannelState> := [];
      FlushStart(channelSet, before, now);
      var k := 0;
      while k < |chs|
        invariant k <= |chs| && Flushing(chs, k, before, after, now)
        invariant forall i | 0 <= i < |chs| :: before[i] == old(StateOf(chs[i]))
      {
        after := Flush(chs, k, before, after, now);
        k := k + 1;
      }
      FlushedAll(channelSet, before, after, now);
    }

    /** `wait_frame`: what the receiver set answers. */
    method WaitFrame(outs: seq<ComInterfaces.Selected>) returns (status: Status)
      requires Valid()
      ensures status == ComInterfaces.FrameStatus(receivers.nfds, receivers.fdSet, outs)
    {
      status := receivers.WaitFrame(outs);
    }

    /** `wait_during`: what the receiver set answers. */
    method WaitDuring(rounds: seq<seq<ComInterfaces.Selected>>) returns (status: Status)
      requires Valid() && |rounds| >= 1
      ensures status == ComInterfaces.Combined(ComInterfaces.FrameStatuses(receivers.nfds, receivers.fdSet, rounds))
    {
      status := receivers.WaitDuring(rounds);
    }
  }
}
