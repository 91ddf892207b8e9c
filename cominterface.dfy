/**
 * The UDP side of a channel, from ed247_cominterface.cpp, with the system
 * calls taken out: socket addresses and their predicates, the process-wide
 * map that shares one system socket among the transceivers bound to the
 * same address, the emitters and receivers `load` creates, the fan-out of
 * `send_frame`, and the status logic of `wait_frame` and `wait_during`.
 * What `inet_addr`, `select` and the clock answer are parameters.
 */
module ComInterfaces {
  import opened Types

  // ---------------------------------------------------------------------
  // Byte order of the address fields (the host is taken little-endian)

  /** `htons` / `ntohs`: the two bytes of a 16-bit value exchanged. */
  function Swap16(v: U16): (r: U16)
    ensures r / 256 == v % 256 && r % 256 == v / 256
  {
    (v % 256) * 256 + v / 256
  }

  /** `htonl` / `ntohl`: the four bytes of a 32-bit value reversed. */
  function Swap32(v: U32): (r: U32)
    ensures r / 0x1_0000 == Swap16(v % 0x1_0000) && r % 0x1_0000 == Swap16(v / 0x1_0000)
  {
    Swap16(v % 0x1_0000) * 0x1_0000 + Swap16(v / 0x1_0000)
  }

  /** Exchanging the bytes twice gives the value back. */
  lemma Swap16Involution(v: U16)
    ensures Swap16(Swap16(v)) == v
  {
    var r := Swap16(v);
    assert Swap16(r) == (r % 256) * 256 + r / 256;
  }

  /** Reversing the bytes twice gives the value back. */
  lemma Swap32Involution(v: U32)
    ensures Swap32(Swap32(v)) == v
  {
    var r := Swap32(v);
    Swap16Involution(v % 0x1_0000);
    Swap16Involution(v / 0x1_0000);
    assert Swap32(r) == Swap16(r % 0x1_0000) * 0x1_0000 + Swap16(r / 0x1_0000);
  }

  // ---------------------------------------------------------------------
  // socket_address_t

  /**
   * A `sockaddr_in` of the PF_INET family, as its two meaningful fields
   * hold it: the IPv4 address and the port, both in network byte order.
   */
  datatype SocketAddress = SocketAddress(sAddr: U32, sinPort: U16)

  /** `INADDR_ANY`. */
  const INADDR_ANY: U32 := 0

  /** The address in host order, `ntohl(sin_addr.s_addr)`. */
  function Host(a: SocketAddress): U32
  {
    Swap32(a.sAddr)
  }

  /** The port in host order. */
  function Port(a: SocketAddress): U16
  {
    Swap16(a.sinPort)
  }

  /** `set_ip_port`. */
  function SetIpPort(a: SocketAddress, port: U16): SocketAddress
  {
    a.(sinPort := Swap16(port))
  }

  /**
   * `set_ip_address`: the empty string stands for any address; any other
   * string is what `inet_addr` makes of it (network order).
   */
  function SetIpAddress(a: SocketAddress, ip: string, inetAddr: string -> U32): SocketAddress
  {
    if ip == [] then a.(sAddr := Swap32(INADDR_ANY)) else a.(sAddr := inetAddr(ip))
  }

  /** The constructor `socket_address_t(ip, port)`. */
  function Address(ip: string, port: U16, inetAddr: string -> U32): SocketAddress
  {
    SetIpAddress(SetIpPort(SocketAddress(0, 0), port), ip, inetAddr)
  }

  /** `is_any_addr`. */
  predicate IsAnyAddr(a: SocketAddress)
  {
    a.sAddr == Swap32(INADDR_ANY)
  }

  /** `is_multicast`: `IN_MULTICAST` on the host-order address, whose top four bits are then 1110. */
  predicate IsMulticast(a: SocketAddress)
  {
    Host(a) / 0x1000_0000 == 0xE
  }

  /** `is_unicast`. */
  predicate IsUnicast(a: SocketAddress)
  {
    !IsMulticast(a)
  }

  /** A constructed address has the port given, and is the any-address exactly when its IP string is empty or parses to 0. */
  lemma AddressParts(ip: string, port: U16, inetAddr: string -> U32)
    ensures Port(Address(ip, port, inetAddr)) == port
    ensures ip == [] ==> IsAnyAddr(Address(ip, port, inetAddr))
    ensures ip != [] ==> Address(ip, port, inetAddr).sAddr == inetAddr(ip)
  {
    Swap16Involution(port);
  }

  /** The any-address is 0 in either byte order. */
  lemma AnyAddrIsZero(a: SocketAddress)
    ensures IsAnyAddr(a) <==> Host(a) == 0
  {
    Swap32Involution(a.sAddr);
  }

  /** Multicast addresses are the class D range, 224.0.0.0 to 239.255.255.255. */
  lemma MulticastRange(a: SocketAddress)
    ensures IsMulticast(a) <==> 0xE000_0000 <= Host(a) < 0xF000_0000
    ensures IsUnicast(a) <==> Host(a) < 0xE000_0000 || 0xF000_0000 <= Host(a)
  {
  }

  /** `socket_address_equal_to`: same address and same port. */
  predicate SameAddress(a: SocketAddress, b: SocketAddress)
  {
    a.sAddr == b.sAddr && a.sinPort == b.sinPort
  }

  /** `socket_address_hash`: the address word XOR the port word (`std::hash` of an integer is the integer). */
  function Hash(a: SocketAddress): (h: nat)
    ensures h < 0x1_0000_0000
  {
    ((a.sAddr as bv32) ^ (a.sinPort as bv32)) as nat
  }

  /**
   * Equality and hash depend on the address and port only: equal
   * addresses are the same value and hash alike, as the map that keys on
   * them requires.
   */
  lemma HashRespectsEquality(a: SocketAddress, b: SocketAddress)
    ensures SameAddress(a, b) <==> a == b
    ensures SameAddress(a, b) ==> Hash(a) == Hash(b)
  {
  }

  // ---------------------------------------------------------------------
  // system_socket_map_t

  /** A system socket handle, as the socket map hands them out. */
  type Socket = nat

  /** `socket_container_t`: the socket bound to an address and how many transceivers use it. */
  datatype SocketEntry = SocketEntry(socket: Socket, count: nat)

  type SocketTable = map<SocketAddress, SocketEntry>

  /** How many transceivers use the socket of `a`. */
  function Count(m: SocketTable, a: SocketAddress): nat
  {
    if a in m then m[a].count else 0
  }

  /** The table after one more transceiver is bound to `a`, `s` being the socket a new entry gets. */
  function Acquired(m: SocketTable, a: SocketAddress, s: Socket): SocketTable
  {
    if a in m then m[a := m[a].(count := m[a].count + 1)] else m[a := SocketEntry(s, 1)]
  }

  /** The table after a transceiver bound to `a` is released. */
  function Released(m: SocketTable, a: SocketAddress): SocketTable
  {
    if a !in m then m
    else if m[a].count <= 1 then m - {a}
    else m[a := m[a].(count := m[a].count - 1)]
  }

  /** Acquiring counts one more use of that address and changes no other count. */
  lemma AcquiredCounts(m: SocketTable, a: SocketAddress, s: Socket, b: SocketAddress)
    ensures Count(Acquired(m, a, s), b) == Count(m, b) + (if a == b then 1 else 0)
    ensures a in Acquired(m, a, s) && Acquired(m, a, s)[a].socket == (if a in m then m[a].socket else s)
  {
  }

  /** Releasing counts one use fewer of a known address, erases it at zero, and ignores an unknown one. */
  lemma ReleasedCounts(m: SocketTable, a: SocketAddress, b: SocketAddress)
    requires forall x | x in m :: m[x].count >= 1
    ensures Count(Released(m, a), b) == Count(m, b) - (if a == b && a in m then 1 else 0)
    ensures a in m && m[a].count == 1 ==> a !in Released(m, a)
  {
  }

  /** Releasing what was just acquired restores the table. */
  lemma ReleaseUndoesAcquire(m: SocketTable, a: SocketAddress, s: Socket)
    requires forall x | x in m :: m[x].count >= 1
    ensures Released(Acquired(m, a, s), a) == m
  {
    if a in m {
      assert Acquired(m, a, s)[a].count >= 2;
      assert Released(Acquired(m, a, s), a)[a] == m[a];
    } else {
      assert Acquired(m, a, s) - {a} == m;
    }
  }

  /**
   * `system_socket_map_t`: one entry per bound address, each with its own
   * socket and a use count of at least one. `nextSocket` stands for the
   * handles the system has not given out yet.
   */
  class SocketMap {
    var entries: SocketTable
    var nextSocket: Socket

    ghost predicate Valid()
      reads this
    {
      (forall a | a in entries :: entries[a].count >= 1 && entries[a].socket < nextSocket) &&
      (forall a, b | a in entries && b in entries && a != b :: entries[a].socket != entries[b].socket)
    }

    /** The map starts empty. */
    constructor()
      ensures Valid() && entries == map[]
    {
      entries := map[];
      nextSocket := 0;
    }

    /**
     * `create`: the socket already bound to `address`, its use counted,
     * or a new socket bound to it with a count of one.
     */
    method Create(address: SocketAddress) returns (s: Socket)
      requires Valid()
      modifies this
      ensures Valid() && entries == Acquired(old(entries), address, s)
      ensures address in old(entries) ==> s == old(entries)[address].socket
      ensures address !in old(entries) ==> forall a | a in old(entries) :: old(entries)[a].socket != s
      ensures old(nextSocket) <= nextSocket
    {
      if address in entries {
        var e := entries[address];
        entries := entries[address := e.(count := e.count + 1)];
        return e.socket;
      }
      s := nextSocket;
      nextSocket := nextSocket + 1;
      entries := entries[address := SocketEntry(s, 1)];
    }

    /** `release`: one use fewer of the socket of `address`, closed and erased at zero; nothing for an unknown address. */
    method Release(address: SocketAddress)
      requires Valid()
      modifies this`entries
      ensures Valid() && entries == Released(old(entries), address)
    {
      if address in entries {
        var e := entries[address];
        if e.count - 1 == 0 {
          entries := entries - {address};
        } else {
          entries := entries[address := e.(count := e.count - 1)];
        }
      }
    }

    /** `assert_sockets_freed`: raises, here answers false, exactly when some socket is still in use. */
    method AssertSocketsFreed() returns (ok: bool)
      ensures ok <==> entries == map[]
    {
      ok := |entries| == 0;
    }
  }

  // ---------------------------------------------------------------------
  // Transceivers and the loading of a com interface

  /** `xml::UdpSocket`: one UDP socket of a channel's configuration. */
  datatype UdpSocketConfig = UdpSocketConfig(direction: Direction, dstIp: string, dstPort: U16,
                                             srcIp: string, srcPort: U16, mcIp: string, mcTtl: U16)

  /** What `load` makes of one UDP socket: a receiver bound to `from` for `group`, or an emitter from `from` to `dest`. */
  datatype Endpoint = Receiving(from: SocketAddress, group: SocketAddress)
                    | Emitting(from: SocketAddress, dest: SocketAddress, ttl: U16)

  /**
   * The endpoint of one UDP socket. IN binds to the destination, or to
   * the multicast interface when the destination is a multicast group;
   * OUT binds to the source, the multicast interface replacing a source
   * that is the any-address when the destination is multicast. Any other
   * direction is refused.
   */
  function Plan(c: UdpSocketConfig, inetAddr: string -> U32): Option<Endpoint>
  {
    var destination := Address(c.dstIp, c.dstPort, inetAddr);
    if c.direction == DIR_IN then
      var from := if IsMulticast(destination) then SetIpAddress(destination, c.mcIp, inetAddr) else destination;
      Some(Receiving(from, destination))
    else if c.direction == DIR_OUT then
      var source := Address(c.srcIp, c.srcPort, inetAddr);
      var from := if IsAnyAddr(source) && IsMulticast(destination) then SetIpAddress(source, c.mcIp, inetAddr) else source;
      Some(Emitting(from, destination, c.mcTtl))
    else None
  }

  /**
   * The rules of `Plan` in terms of the addresses: a receiver listens on
   * the destination port, on the destination itself when it is unicast;
   * an emitter sends from the source port, from the multicast interface
   * only for an any-address source and a multicast destination.
   */
  lemma PlanRules(c: UdpSocketConfig, inetAddr: string -> U32)
    ensures Plan(c, inetAddr).None? <==> c.direction != DIR_IN && c.direction != DIR_OUT
    ensures c.direction == DIR_IN ==>
      var e := Plan(c, inetAddr).value;
      e.Receiving? && e.group == Address(c.dstIp, c.dstPort, inetAddr) && Port(e.from) == c.dstPort &&
      (IsUnicast(e.group) ==> e.from == e.group) &&
      (IsMulticast(e.group) ==> e.from == SetIpAddress(e.group, c.mcIp, inetAddr))
    ensures c.direction == DIR_OUT ==>
      var e := Plan(c, inetAddr).value;
      var source := Address(c.srcIp, c.srcPort, inetAddr);
      e.Emitting? && e.dest == Address(c.dstIp, c.dstPort, inetAddr) && e.ttl == c.mcTtl && Port(e.from) == c.srcPort &&
      (e.from != source ==> IsAnyAddr(source) && IsMulticast(e.dest) && e.from == SetIpAddress(source, c.mcIp, inetAddr))
  {
    AddressParts(c.dstIp, c.dstPort, inetAddr);
    AddressParts(c.srcIp, c.srcPort, inetAddr);
  }

  /** Every UDP socket has a direction `load` accepts. */
  predicate Loadable(cs: seq<UdpSocketConfig>, inetAddr: string -> U32)
  {
    forall i | 0 <= i < |cs| :: Plan(cs[i], inetAddr).Some?
  }

  /** The emitter a planned endpoint gives, if any. */
  function EmitOf(e: Option<Endpoint>): seq<Endpoint>
  {
    if e.Some? && e.value.Emitting? then [e.value] else []
  }

  /** The receiver a planned endpoint gives, if any. */
  function ReceiveOf(e: Option<Endpoint>): seq<Endpoint>
  {
    if e.Some? && e.value.Receiving? then [e.value] else []
  }

  /** The address a planned endpoint binds, if any. */
  function FromOf(e: Option<Endpoint>): seq<SocketAddress>
  {
    if e.Some? then [e.value.from] else []
  }

  /** The endpoints planned for the UDP sockets `cs`, in order. */
  function Plans(cs: seq<UdpSocketConfig>, inetAddr: string -> U32): (ps: seq<Option<Endpoint>>)
    ensures |ps| == |cs| && forall i | 0 <= i < |cs| :: ps[i] == Plan(cs[i], inetAddr)
  {
    seq(|cs|, i requires 0 <= i < |cs| => Plan(cs[i], inetAddr))
  }

  /** Every UDP socket got an endpoint. */
  predicate AllPlanned(ps: seq<Option<Endpoint>>)
  {
    forall i | 0 <= i < |ps| :: ps[i].Some?
  }

  /** The emitters the planned endpoints `ps` give, in order. */
  function Emits(ps: seq<Option<Endpoint>>): seq<Endpoint>
  {
    if ps == [] then [] else Emits(ps[..|ps| - 1]) + EmitOf(ps[|ps| - 1])
  }

  /** The receivers the planned endpoints `ps` give, in order. */
  function Receives(ps: seq<Option<Endpoint>>): seq<Endpoint>
  {
    if ps == [] then [] else Receives(ps[..|ps| - 1]) + ReceiveOf(ps[|ps| - 1])
  }

  /** The addresses the transceivers of `ps` bind, in order. */
  function Froms(ps: seq<Option<Endpoint>>): seq<SocketAddress>
  {
    if ps == [] then [] else Froms(ps[..|ps| - 1]) + FromOf(ps[|ps| - 1])
  }

  /** Every UDP socket of a loadable configuration gives exactly one transceiver, bound to one address. */
  lemma {:induction false} OneTransceiverEach(ps: seq<Option<Endpoint>>)
    requires AllPlanned(ps)
    ensures |Emits(ps)| + |Receives(ps)| == |Froms(ps)| == |ps|
  {
    if ps != [] {
      var front := ps[..|ps| - 1];
      assert AllPlanned(front) by {
        forall i | 0 <= i < |front| ensures front[i].Some? {
          assert front[i] == ps[i];
        }
      }
      OneTransceiverEach(front);
    }
  }

  /** The functions over `ps[..k + 1]` extend those over `ps[..k]` by what `ps[k]` gives. */
  lemma PrefixStep(ps: seq<Option<Endpoint>>, k: nat)
    requires k < |ps|
    ensures Emits(ps[..k + 1]) == Emits(ps[..k]) + EmitOf(ps[k])
    ensures Receives(ps[..k + 1]) == Receives(ps[..k]) + ReceiveOf(ps[k])
    ensures Froms(ps[..k + 1]) == Froms(ps[..k]) + FromOf(ps[k])
    ensures AllPlanned(ps[..k + 1]) <==> AllPlanned(ps[..k]) && ps[k].Some?
  {
    var p := ps[..k + 1];
    assert p[..k] == ps[..k] && p[k] == ps[k];
    if AllPlanned(p) {
      assert p[k].Some?;
      forall i | 0 <= i < k ensures ps[..k][i].Some? {
        assert p[i] == ps[..k][i];
      }
    }
  }

  /** How many times `a` occurs in `s`. */
  function Uses(s: seq<SocketAddress>, a: SocketAddress): nat
  {
    if s == [] then 0 else Uses(s[..|s| - 1], a) + if s[|s| - 1] == a then 1 else 0
  }

  /** Occurrences add up over a concatenation with at most one element. */
  lemma UsesAppend(s: seq<SocketAddress>, t: seq<SocketAddress>, a: SocketAddress)
    requires |t| <= 1
    ensures Uses(s + t, a) == Uses(s, a) + Uses(t, a)
  {
    if t != [] {
      assert (s + t)[..|s + t| - 1] == s;
      assert t[..0] == [];
    } else {
      assert s + t == s;
    }
  }

  /** `emitter`: the transceiver's address and socket, and where it sends. */
  datatype Emitter = Emitter(from: SocketAddress, dest: SocketAddress, ttl: U16, socket: Socket)

  /** `receiver`: the transceiver's address and socket, and the group it joined. */
  datatype Receiver = Receiver(from: SocketAddress, group: SocketAddress, socket: Socket)

  function EmitterEnds(es: seq<Emitter>): seq<Endpoint>
  {
    if es == [] then [] else EmitterEnds(es[..|es| - 1]) + [Emitting(es[|es| - 1].from, es[|es| - 1].dest, es[|es| - 1].ttl)]
  }

  function ReceiverEnds(rs: seq<Receiver>): seq<Endpoint>
  {
    if rs == [] then [] else ReceiverEnds(rs[..|rs| - 1]) + [Receiving(rs[|rs| - 1].from, rs[|rs| - 1].group)]
  }

  /** A datagram handed to the system: from the socket of an emitter to its destination. */
  datatype Datagram = Datagram(socket: Socket, dest: SocketAddress, payload: seq<Byte>)

  /** What `send_frame` hands to the system: the same payload from every emitter, in order. */
  function Fanout(es: seq<Emitter>, payload: seq<Byte>): (ds: seq<Datagram>)
    ensures |ds| == |es|
    ensures forall i | 0 <= i < |es| :: ds[i].payload == payload && ds[i].socket == es[i].socket && ds[i].dest == es[i].dest
  {
    if es == [] then [] else Fanout(es[..|es| - 1], payload) + [Datagram(es[|es| - 1].socket, es[|es| - 1].dest, payload)]
  }

  /** Every emitter holds the socket the table keeps for its address. */
  ghost predicate EmittersBound(es: seq<Emitter>, m: SocketTable)
  {
    forall i | 0 <= i < |es| :: es[i].from in m && m[es[i].from].socket == es[i].socket
  }

  /** Every receiver holds the socket the table keeps for its address. */
  ghost predicate ReceiversBound(rs: seq<Receiver>, m: SocketTable)
  {
    forall i | 0 <= i < |rs| :: rs[i].from in m && m[rs[i].from].socket == rs[i].socket
  }

  /** A table that gained a use keeps every transceiver's binding. */
  lemma StaysBound(es: seq<Emitter>, rs: seq<Receiver>, m: SocketTable, a: SocketAddress, s: Socket)
    requires EmittersBound(es, m) && ReceiversBound(rs, m)
    ensures EmittersBound(es, Acquired(m, a, s)) && ReceiversBound(rs, Acquired(m, a, s))
  {
  }

  /** The uses a planned endpoint adds to the table. */
  lemma InstallCounts(m: SocketTable, plan: Option<Endpoint>, s: Socket)
    requires plan.Some?
    ensures plan.value.from in Acquired(m, plan.value.from, s)
    ensures forall a :: Count(Acquired(m, plan.value.from, s), a) == Count(m, a) + Uses(FromOf(plan), a)
  {
    forall a
      ensures Count(Acquired(m, plan.value.from, s), a) == Count(m, a) + Uses(FromOf(plan), a)
    {
      AcquiredCounts(m, plan.value.from, s, a);
      assert [plan.value.from][..0] == [];
    }
  }

  /** A new emitter holding its address's socket keeps the emitters bound. */
  lemma BindEmitter(es: seq<Emitter>, m: SocketTable, e: Emitter)
    requires EmittersBound(es, m) && e.from in m && m[e.from].socket == e.socket
    ensures EmittersBound(es + [e], m)
    ensures EmitterEnds(es + [e]) == EmitterEnds(es) + [Emitting(e.from, e.dest, e.ttl)]
  {
    assert (es + [e])[..|es|] == es;
  }

  /** A new receiver holding its address's socket keeps the receivers bound. */
  lemma BindReceiver(rs: seq<Receiver>, m: SocketTable, r: Receiver)
    requires ReceiversBound(rs, m) && r.from in m && m[r.from].socket == r.socket
    ensures ReceiversBound(rs + [r], m)
    ensures ReceiverEnds(rs + [r]) == ReceiverEnds(rs) + [Receiving(r.from, r.group)]
  {
    assert (rs + [r])[..|rs|] == rs;
  }

  /**
   * One UDP socket loaded: the transceiver planned for it added to the
   * emitters or receivers, its address's use counted, every transceiver
   * still holding the socket of its address.
   */
  ghost predicate Installed(plan: Option<Endpoint>, es: seq<Emitter>, rs: seq<Receiver>, m: SocketTable,
                            es': seq<Emitter>, rs': seq<Receiver>, m': SocketTable)
  {
    EmitterEnds(es') == EmitterEnds(es) + EmitOf(plan) &&
    ReceiverEnds(rs') == ReceiverEnds(rs) + ReceiveOf(plan) &&
    (forall a :: Count(m', a) == Count(m, a) + Uses(FromOf(plan), a)) &&
    EmittersBound(es', m') && ReceiversBound(rs', m')
  }

  /** Nothing planned, nothing installed. */
  lemma NothingInstalled(es: seq<Emitter>, rs: seq<Receiver>, m: SocketTable)
    requires EmittersBound(es, m) && ReceiversBound(rs, m)
    ensures Installed(None, es, rs, m, es, rs, m)
  {
    assert EmitterEnds(es) + [] == EmitterEnds(es);
    assert ReceiverEnds(rs) + [] == ReceiverEnds(rs);
  }

  /** The transceiver of a planned endpoint, bound to socket `s` of the table. */
  lemma InstalledOne(plan: Option<Endpoint>, es: seq<Emitter>, rs: seq<Receiver>, m: SocketTable, s: Socket)
    requires plan.Some? && EmittersBound(es, m) && ReceiversBound(rs, m)
    requires plan.value.from in m ==> m[plan.value.from].socket == s
    ensures var e := plan.value;
      var m' := Acquired(m, e.from, s);
      if e.Receiving? then Installed(plan, es, rs, m, es, rs + [Receiver(e.from, e.group, s)], m')
      else Installed(plan, es, rs, m, es + [Emitter(e.from, e.dest, e.ttl, s)], rs, m')
  {
    var e := plan.value;
    var m' := Acquired(m, e.from, s);
    InstallCounts(m, plan, s);
    StaysBound(es, rs, m, e.from, s);
    if e.Receiving? {
      BindReceiver(rs, m', Receiver(e.from, e.group, s));
      assert EmitterEnds(es) + [] == EmitterEnds(es);
    } else {
      BindEmitter(es, m', Emitter(e.from, e.dest, e.ttl, s));
      assert ReceiverEnds(rs) + [] == ReceiverEnds(rs);
    }
  }

  /** One more UDP socket loaded extends what the ones before it loaded. */
  lemma InstalledAfter(plan: Option<Endpoint>, es0: seq<Emitter>, rs0: seq<Receiver>, m0: SocketTable,
                       es: seq<Emitter>, rs: seq<Receiver>, m: SocketTable,
                       es': seq<Emitter>, rs': seq<Receiver>, m': SocketTable, froms: seq<SocketAddress>)
    requires forall a :: Count(m, a) == Count(m0, a) + Uses(froms, a)
    requires Installed(plan, es, rs, m, es', rs', m')
    ensures forall a :: Count(m', a) == Count(m0, a) + Uses(froms + FromOf(plan), a)
  {
    forall a
      ensures Count(m', a) == Count(m0, a) + Uses(froms + FromOf(plan), a)
    {
      UsesAppend(froms, FromOf(plan), a);
    }
  }

  /** The UDP sockets `cs` loaded onto the transceivers `es0`, `rs0` and the table `m0`. */
  ghost predicate Loaded(ps: seq<Option<Endpoint>>,
                         es0: seq<Emitter>, rs0: seq<Receiver>, m0: SocketTable,
                         es: seq<Emitter>, rs: seq<Receiver>, m: SocketTable)
  {
    AllPlanned(ps) &&
    EmitterEnds(es) == EmitterEnds(es0) + Emits(ps) &&
    ReceiverEnds(rs) == ReceiverEnds(rs0) + Receives(ps) &&
    (forall a :: Count(m, a) == Count(m0, a) + Uses(Froms(ps), a)) &&
    EmittersBound(es, m) && ReceiversBound(rs, m)
  }

  /** Nothing loaded yet. */
  lemma Unloaded(ps: seq<Option<Endpoint>>, es: seq<Emitter>, rs: seq<Receiver>, m: SocketTable)
    requires EmittersBound(es, m) && ReceiversBound(rs, m)
    ensures Loaded(ps[..0], es, rs, m, es, rs, m)
  {
    assert ps[..0] == [];
    assert EmitterEnds(es) + [] == EmitterEnds(es);
    assert ReceiverEnds(rs) + [] == ReceiverEnds(rs);
  }

  /**
   * One turn of `load`: the socket `cs[k]` installed after `cs[..k]`
   * extends what was loaded, and a socket with no plan makes the whole
   * configuration unloadable.
   */
  lemma LoadedStep(ps: seq<Option<Endpoint>>, k: nat,
                   es0: seq<Emitter>, rs0: seq<Receiver>, m0: SocketTable,
                   es: seq<Emitter>, rs: seq<Receiver>, m: SocketTable,
                   es': seq<Emitter>, rs': seq<Receiver>, m': SocketTable)
    requires k < |ps| && ps[k].Some? && Loaded(ps[..k], es0, rs0, m0, es, rs, m)
    requires Installed(ps[k], es, rs, m, es', rs', m')
    ensures Loaded(ps[..k + 1], es0, rs0, m0, es', rs', m')
  {
    PrefixStep(ps, k);
    Extend(es0, rs0, m0, es, rs, m, es', rs', m', Emits(ps[..k]), Receives(ps[..k]), Froms(ps[..k]), ps[k]);
  }

  /** What was loaded so far, followed by one installed endpoint. */
  lemma Extend(es0: seq<Emitter>, rs0: seq<Receiver>, m0: SocketTable,
               es: seq<Emitter>, rs: seq<Receiver>, m: SocketTable,
               es': seq<Emitter>, rs': seq<Receiver>, m': SocketTable,
               emits: seq<Endpoint>, receives: seq<Endpoint>, froms: seq<SocketAddress>, plan: Option<Endpoint>)
    requires EmitterEnds(es) == EmitterEnds(es0) + emits && ReceiverEnds(rs) == ReceiverEnds(rs0) + receives
    requires forall a :: Count(m, a) == Count(m0, a) + Uses(froms, a)
    requires Installed(plan, es, rs, m, es', rs', m')
    ensures EmitterEnds(es') == EmitterEnds(es0) + (emits + EmitOf(plan))
    ensures ReceiverEnds(rs') == ReceiverEnds(rs0) + (receives + ReceiveOf(plan))
    ensures forall a :: Count(m', a) == Count(m0, a) + Uses(froms + FromOf(plan), a)
    ensures EmittersBound(es', m') && ReceiversBound(rs', m')
  {
    InstalledAfter(plan, es0, rs0, m0, es, rs, m, es', rs', m', froms);
    Chain(EmitterEnds(es0), emits, EmitOf(plan), EmitterEnds(es), EmitterEnds(es'));
    Chain(ReceiverEnds(rs0), receives, ReceiveOf(plan), ReceiverEnds(rs), ReceiverEnds(rs'));
  }

  /** Appending in two steps is appending the two parts. */
  lemma Chain<T>(a: seq<T>, b: seq<T>, c: seq<T>, x: seq<T>, y: seq<T>)
    requires x == a + b && y == x + c
    ensures y == a + (b + c)
  {
  }

  // ---------------------------------------------------------------------
  // receiver_set_t

  /** `nfds`: one more than the largest socket of the receivers, 0 without receivers. */
  function MaxFd(rs: seq<Receiver>): (n: nat)
    ensures forall i | 0 <= i < |rs| :: rs[i].socket < n
    ensures rs != [] ==> exists i | 0 <= i < |rs| :: rs[i].socket + 1 == n
  {
    if rs == [] then 0
    else
      var m := MaxFd(rs[..|rs| - 1]);
      var s := rs[|rs| - 1].socket + 1;
      if s > m then s else m
  }

  /** What one `select` call reports: some sockets ready, the timeout, an interruption (EINTR) or a failure. */
  datatype Selected = Ready(ready: set<Socket>) | Expired | Interrupted | Failed

  /** The call that ends the select loop: the first timeout or failure, `|outs|` when none comes. */
  function Terminal(outs: seq<Selected>): (t: nat)
    ensures t <= |outs| && (t < |outs| ==> outs[t].Expired? || outs[t].Failed?)
    ensures forall i | 0 <= i < t :: outs[i].Ready? || outs[i].Interrupted?
  {
    if outs == [] then 0
    else if outs[0].Expired? || outs[0].Failed? then 0
    else 1 + Terminal(outs[1..])
  }

  /**
   * What `wait_frame` answers, with the select calls answering `outs`
   * (the calls beyond `outs` time out): TIMEOUT without a receiver; else
   * FAILURE when the loop ends on a failed select, whatever was received
   * before; else SUCCESS when some ready socket was a receiver's; else
   * TIMEOUT.
   */
  function FrameStatus(nfds: int, sockets: set<Socket>, outs: seq<Selected>): Status
  {
    if nfds <= 0 then Timeout
    else
      var t := Terminal(outs);
      if t < |outs| && outs[t].Failed? then Failure
      else if exists i | 0 <= i < t :: outs[i].Ready? && outs[i].ready * sockets != {} then Success
      else Timeout
  }

  /**
   * `wait_during`'s status from the statuses of its `wait_frame` calls:
   * FAILURE if any failed, else SUCCESS if any received, else NODATA.
   */
  function Combined(results: seq<Status>): (r: Status)
    ensures r == Failure <==> Failure in results
    ensures r == Success <==> Failure !in results && Success in results
    ensures r == NoData <==> Failure !in results && Success !in results
  {
    if Failure in results then Failure else if Success in results then Success else NoData
  }

  /** The statuses of successive `wait_frame` calls whose select calls report `rounds`. */
  function FrameStatuses(nfds: int, sockets: set<Socket>, rounds: seq<seq<Selected>>): (r: seq<Status>)
    ensures |r| == |rounds|
    ensures forall i | 0 <= i < |rounds| :: r[i] == FrameStatus(nfds, sockets, rounds[i])
  {
    if rounds == [] then []
    else FrameStatuses(nfds, sockets, rounds[..|rounds| - 1]) + [FrameStatus(nfds, sockets, rounds[|rounds| - 1])]
  }

  /** The sockets of the receivers. */
  function SocketsOf(rs: seq<Receiver>): set<Socket>
  {
    set i | 0 <= i < |rs| :: rs[i].socket
  }

  /** `receiver_set_t`: the receivers of a context and the `select` options kept with them. */
  class ReceiverSet {
    var receivers: seq<Receiver>
    var nfds: int
    var fdSet: set<Socket>

    ghost predicate Valid()
      reads this
    {
      nfds == MaxFd(receivers) && fdSet == SocketsOf(receivers)
    }

    /** An empty set: `FD_ZERO` and `nfds` 0. */
    constructor()
      ensures Valid() && receivers == []
    {
      receivers := [];
      nfds := 0;
      fdSet := {};
    }

    /** `emplace`: the receiver joins the set and its socket the select options. */
    method Emplace(r: Receiver)
      requires Valid()
      modifies this
      ensures Valid() && receivers == old(receivers) + [r]
      ensures r.socket < nfds && old(nfds) <= nfds
    {
      nfds := if r.socket + 1 > nfds then r.socket + 1 else nfds;
      fdSet := fdSet + {r.socket};
      receivers := receivers + [r];
      assert receivers[..|receivers| - 1] == old(receivers);
    }

    /** Some receiver's socket is among the `ready` ones (the `FD_ISSET` loop; each such receiver then receives). */
    method Serve(ready: set<Socket>) returns (any: bool)
      requires Valid()
      ensures any <==> ready * fdSet != {}
    {
      any := false;
      var k := 0;
      while k < |receivers|
        invariant k <= |receivers|
        invariant any <==> exists i | 0 <= i < k :: receivers[i].socket in ready
      {
        if receivers[k].socket in ready {
          any := true;
        }
        k := k + 1;
      }
      if any {
        var i :| 0 <= i < |receivers| && receivers[i].socket in ready;
        assert receivers[i].socket in SocketsOf(receivers);
        assert receivers[i].socket in ready * fdSet;
      }
      if ready * fdSet != {} {
        var s :| s in ready * fdSet;
        var i :| 0 <= i < |receivers| && receivers[i].socket == s;
      }
    }

    /**
     * `wait_frame`: the select loop, `outs` standing for what the
     * successive select calls report.
     */
    method WaitFrame(outs: seq<Selected>) returns (status: Status)
      requires Valid()
      ensures status == FrameStatus(nfds, fdSet, outs)
    {
      if nfds <= 0 {
        return Timeout;
      }
      status := Timeout;
      var k := 0;
      var last: Selected := Expired;
      var t := Terminal(outs);
      while k < |outs| && (outs[k].Ready? || outs[k].Interrupted?)
        invariant k <= t
        invariant status == Success <==> exists i | 0 <= i < k :: outs[i].Ready? && outs[i].ready * fdSet != {}
        invariant status == Timeout || status == Success
      {
        if outs[k].Ready? {
          var any := Serve(outs[k].ready);
          if any {
            status := Success;
          }
        }
        k := k + 1;
      }
      assert k == t;
      if k < |outs| && outs[k].Failed? {
        status := Failure;
      }
    }

    /**
     * `wait_during`: `wait_frame` over and over until the duration is
     * spent or a wait fails; `rounds` holds what the select calls report
     * in each of the waits the duration leaves time for.
     */
    method WaitDuring(rounds: seq<seq<Selected>>) returns (status: Status)
      requires Valid() && |rounds| >= 1
      ensures status == Combined(FrameStatuses(nfds, fdSet, rounds))
    {
      status := NoData;
      var k := 0;
      while true
        invariant k < |rounds| && status == Combined(FrameStatuses(nfds, fdSet, rounds[..k])) && status != Failure
        decreases |rounds| - k
      {
        var result := WaitFrame(rounds[k]);
        if result == Success {
          status := Success;
        } else if result == Failure {
          status := Failure;
        }
        assert rounds[..k + 1][..k] == rounds[..k];
        k := k + 1;
        if status == Failure {
          assert Failure in FrameStatuses(nfds, fdSet, rounds) by {
            assert FrameStatuses(nfds, fdSet, rounds)[k - 1] == Failure;
          }
          return;
        }
        if k == |rounds| {
          assert rounds[..k] == rounds;
          return;
        }
      }
    }
  }

  // ---------------------------------------------------------------------
  // ComInterface

  /** `ComInterface`: the emitters of a channel, and what its `send_frame` calls handed to the system. */
  class ComInterface {
    var emitters: seq<Emitter>
    var datagrams: seq<Datagram>

    constructor()
      ensures emitters == [] && datagrams == []
    {
      emitters := [];
      datagrams := [];
    }

    /** One turn of `load`: the transceiver of the endpoint planned for a UDP socket, or false when there is none. */
    method Install(plan: Option<Endpoint>, receivers: ReceiverSet, sockets: SocketMap) returns (ok: bool)
      requires receivers.Valid() && sockets.Valid()
      requires EmittersBound(emitters, sockets.entries) && ReceiversBound(receivers.receivers, sockets.entries)
      modifies this`emitters, receivers, sockets
      ensures receivers.Valid() && sockets.Valid() && (ok <==> plan.Some?)
      ensures Installed(plan, old(emitters), old(receivers.receivers), old(sockets.entries), emitters, receivers.receivers, sockets.entries)
    {
      if plan.None? {
        NothingInstalled(emitters, receivers.receivers, sockets.entries);
        return false;
      }
      ghost var es, rs, m := emitters, receivers.receivers, sockets.entries;
      var e := plan.value;
      var s := sockets.Create(e.from);
      if e.Receiving? {
        receivers.Emplace(Receiver(e.from, e.group, s));
      } else {
        emitters := emitters + [Emitter(e.from, e.dest, e.ttl, s)];
      }
      InstalledOne(plan, es, rs, m, s);
      ok := true;
    }

    /**
     * `load`: one receiver (into the context's receiver set) or one
     * emitter per UDP socket, in order, each bound to the socket the
     * socket map keeps for its address; a socket of any other direction
     * raises, here answers false.
     */
    method Load(cs: seq<UdpSocketConfig>, receivers: ReceiverSet, sockets: SocketMap, inetAddr: string -> U32) returns (ok: bool)
      requires receivers.Valid() && sockets.Valid()
      requires EmittersBound(emitters, sockets.entries) && ReceiversBound(receivers.receivers, sockets.entries)
      modifies this`emitters, receivers, sockets
      ensures receivers.Valid() && sockets.Valid()
      ensures EmittersBound(emitters, sockets.entries) && ReceiversBound(receivers.receivers, sockets.entries)
      ensures ok <==> Loadable(cs, inetAddr)
      ensures ok ==> EmitterEnds(emitters) == EmitterEnds(old(emitters)) + Emits(Plans(cs, inetAddr))
      ensures ok ==> ReceiverEnds(receivers.receivers) == ReceiverEnds(old(receivers.receivers)) + Receives(Plans(cs, inetAddr))
      ensures ok ==> forall a :: Count(sockets.entries, a) == Count(old(sockets.entries), a) + Uses(Froms(Plans(cs, inetAddr)), a)
    {
      ghost var ps := Plans(cs, inetAddr);
      var k := 0;
      Unloaded(ps, emitters, receivers.receivers, sockets.entries);
      while k < |cs|
        invariant k <= |cs| && receivers.Valid() && sockets.Valid()
        invariant Loaded(ps[..k], old(emitters), old(receivers.receivers), old(sockets.entries),
          emitters, receivers.receivers, sockets.entries)
      {
        ghost var es, rs, m := emitters, receivers.receivers, sockets.entries;
        var plan := Plan(cs[k], inetAddr);
        ok := Install(plan, receivers, sockets);
        if !ok {
          return;
        }
        LoadedStep(ps, k, old(emitters), old(receivers.receivers), old(sockets.entries),
          es, rs, m, emitters, receivers.receivers, sockets.entries);
        k := k + 1;
      }
      assert ps[..k] == ps;
      assert Loadable(cs, inetAddr) by {
        forall i | 0 <= i < |cs| ensures Plan(cs[i], inetAddr).Some? {
          assert ps[i] == Plan(cs[i], inetAddr);
        }
      }
      ok := true;
    }

    /** `send_frame`: the payload handed to every emitter in turn. */
    method SendFrame(payload: seq<Byte>)
      modifies this`datagrams
      ensures datagrams == old(datagrams) + Fanout(emitters, payload)
    {
      var k := 0;
      while k < |emitters|
        invariant k <= |emitters| && datagrams == old(datagrams) + Fanout(emitters[..k], payload)
      {
        assert emitters[..k + 1][..k] == emitters[..k];
        datagrams := datagrams + [Datagram(emitters[k].socket, emitters[k].dest, payload)];
        k := k + 1;
      }
      assert emitters[..k] == emitters;
    }
  }
}
