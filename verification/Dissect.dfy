/** Header dissection in test-pmd/csumonly.c.

  The dissector walks the headers of a packet, possibly through one tunnel, and records layer
  lengths from which the inner headers are found.  It never checks the packet's length: it reads
  memory from the first byte of the Ethernet header on.
 */
module Dissect {
  import opened Wrappers

  type Byte = b: int | 0 <= b < 256
  type Mem = nat -> Byte

  const IPPROTO_IPIP := 4
  const IPPROTO_TCP := 6
  const IPPROTO_UDP := 17
  const IPPROTO_IPV6 := 41
  const IPPROTO_GRE := 47
  const TYPE_IPV4 := 0x0800
  const TYPE_IPV6 := 0x86DD
  const TYPE_VLAN := 0x8100
  const TYPE_TEB := 0x6558
  const VXLAN_PORT := 4789
  const ETH_LEN := 14
  const VLAN_LEN := 4
  const IPV6_LEN := 40
  const UDP_LEN := 8
  const VXLAN_LEN := 8
  const GRE_LEN := 4
  const GRE_EXT_LEN := 4

  // ---------------------------------------------------------------- what the code computes

  /** testpmd_offload_info, as far as the dissector fills it. */
  datatype Info = Info(
    ethertype: nat, l2Len: nat, l3Len: nat, l4Len: nat, l4Proto: nat, isTunnel: bool,
    outerEthertype: nat, outerL2Len: nat, outerL3Len: nat, outerL4Proto: nat)

  function Be16(m: Mem, at: nat): nat {
    m(at) * 256 + m(at + 1)
  }

  function L4Length(m: Mem, at: nat, proto: nat): nat {
    if proto == IPPROTO_TCP then m(at + 12) / 16 * 4 else if proto == IPPROTO_UDP then UDP_LEN else 0
  }

  function Ipv4(m: Mem, at: nat, i: Info): Info {
    var l3, proto := m(at) % 16 * 4, m(at + 9);
    i.(l3Len := l3, l4Proto := proto, l4Len := L4Length(m, at + l3, proto))
  }

  function Ipv6(m: Mem, at: nat, i: Info): Info {
    var proto := m(at + 6);
    i.(l3Len := IPV6_LEN, l4Proto := proto, l4Len := L4Length(m, at + IPV6_LEN, proto))
  }

  function Ethernet(m: Mem, at: nat, i: Info): Info {
    var vlan := Be16(m, at + 12) == TYPE_VLAN;
    var l2 := if vlan then ETH_LEN + VLAN_LEN else ETH_LEN;
    var j := i.(l2Len := l2, ethertype := Be16(m, at + l2 - 2));
    if j.ethertype == TYPE_IPV4 then Ipv4(m, at + l2, j)
    else if j.ethertype == TYPE_IPV6 then Ipv6(m, at + l2, j)
    else j.(l4Len := 0, l3Len := 0, l4Proto := 0)
  }

  /** What was found so far becomes the outer header. */
  function Outwards(i: Info): Info {
    i.(isTunnel := true, outerEthertype := i.ethertype, outerL2Len := i.l2Len, outerL3Len := i.l3Len)
  }

  function OutwardsL4(i: Info): Info {
    Outwards(i).(outerL4Proto := i.l4Proto)
  }

  function Vxlan(m: Mem, udp: nat, i: Info, marked: bool): Info {
    if Be16(m, udp + 2) != VXLAN_PORT && !marked then i
    else
      var j := Ethernet(m, udp + UDP_LEN + VXLAN_LEN, OutwardsL4(i));
      j.(l2Len := j.l2Len + UDP_LEN + VXLAN_LEN)
  }

  /** An encapsulated header of the given type; `gap` bytes lie before it. */
  function Inside(m: Mem, at: nat, i: Info, kind: nat, gap: nat): Info {
    var j :=
      if kind == TYPE_IPV4 then Ipv4(m, at, i).(ethertype := TYPE_IPV4, l2Len := 0)
      else if kind == TYPE_IPV6 then Ipv6(m, at, i).(ethertype := TYPE_IPV6, l2Len := 0)
      else Ethernet(m, at, i);
    j.(l2Len := j.l2Len + gap)
  }

  /** The type a VXLAN-GPE next-protocol byte stands for. */
  function GpeKind(proto: nat): nat {
    if proto <= 1 then TYPE_IPV4 else if proto == 2 then TYPE_IPV6 else TYPE_TEB
  }

  function VxlanGpe(m: Mem, udp: nat, i: Info, gpePort: nat): Info {
    var proto := m(udp + UDP_LEN + 3);
    if Be16(m, udp + 2) != gpePort || proto > 3 then i
    else Inside(m, udp + UDP_LEN + VXLAN_LEN, OutwardsL4(i), GpeKind(proto), UDP_LEN + VXLAN_LEN)
  }

  function Flag(flags: nat, bit: nat): nat
    requires bit > 0
  {
    if flags / bit % 2 == 1 then GRE_EXT_LEN else 0
  }

  function GreLength(flags: nat): nat {
    GRE_LEN + Flag(flags, 0x2000) + Flag(flags, 0x1000) + Flag(flags, 0x8000)
  }

  function Gre(m: Mem, at: nat, i: Info): Info {
    var kind, len := Be16(m, at + 2), GreLength(Be16(m, at));
    if kind != TYPE_IPV4 && kind != TYPE_IPV6 && kind != TYPE_TEB then i
    else Inside(m, at + len, OutwardsL4(i), kind, len)
  }

  function EncapIp(m: Mem, at: nat, i: Info): Info {
    var version := m(at) / 16;
    if version == 4 then Inside(m, at, Outwards(i), TYPE_IPV4, 0)
    else if version == 6 then Inside(m, at, Outwards(i), TYPE_IPV6, 0)
    else i
  }

  /** The tunnel headers after the first IP header. */
  function Tunnel(m: Mem, l4: nat, i: Info, gpePort: nat, marked: bool): Info {
    if i.l4Proto == IPPROTO_UDP then
      var j := VxlanGpe(m, l4, i, gpePort);
      if j.isTunnel then j else Vxlan(m, l4, j, marked)
    else if i.l4Proto == IPPROTO_GRE then Gre(m, l4, i)
    else if i.l4Proto == IPPROTO_IPIP then EncapIp(m, l4, i)
    else i
  }

  /** The dissection of one packet; `stale` is what the previous packet left behind. */
  function Packet(m: Mem, stale: Info, gpePort: nat, marked: bool): Info {
    var i := Ethernet(m, 0, stale.(isTunnel := false));
    Tunnel(m, i.l2Len + i.l3Len, i, gpePort, marked)
  }

  // ---------------------------------------------------------------- the packets

  datatype L4 =
    | Udp(srcPort: seq<Byte>, dstPort: nat, lenSum: seq<Byte>)
    | Tcp(start: seq<Byte>, words: nat, low: nat, more: seq<Byte>)
    | Other(proto: Byte)

  datatype Ip =
    | V4(ihl: nat, mid: seq<Byte>, more: seq<Byte>)
    | V6(low: nat, mid: seq<Byte>, more: seq<Byte>)

  datatype Eth = Eth(addrs: seq<Byte>, tci: Option<seq<Byte>>)

  /** What may carry the inner packet. */
  datatype Encap =
    | OverVxlan(srcPort: seq<Byte>, port: nat, lenSum: seq<Byte>, vxlan: seq<Byte>, eth: Eth)
    | OverGpe(srcPort: seq<Byte>, lenSum: seq<Byte>, flags: seq<Byte>, bare: bool, vni: seq<Byte>, inEth: Option<Eth>)
    | OverGre(csum: Option<seq<Byte>>, key: Option<seq<Byte>>, number: Option<seq<Byte>>, low: nat, inEth: Option<Eth>)
    | OverIp

  predicate L4Ok(l: L4) {
    match l
    case Udp(s, d, r) => |s| == 2 && d < 0x1_0000 && |r| == 4
    case Tcp(s, w, low, r) => |s| == 12 && w < 16 && low < 16 && |r| >= 7
    case Other(p) => p != IPPROTO_TCP && p != IPPROTO_UDP
  }

  predicate IpOk(ip: Ip) {
    match ip
    case V4(ihl, mid, more) => 5 <= ihl < 16 && |mid| == 8 && |more| == 4 * ihl - 10
    case V6(low, mid, more) => low < 16 && |mid| == 5 && |more| == 33
  }

  predicate EthOk(e: Eth) {
    |e.addrs| == 12 && (e.tci.Some? ==> |e.tci.value| == 2)
  }

  predicate OptOk(o: Option<seq<Byte>>, n: nat) {
    o.Some? ==> |o.value| == n
  }

  predicate EncapOk(e: Encap) {
    match e
    case OverVxlan(s, port, r, v, eth) => |s| == 2 && port < 0x1_0000 && |r| == 4 && |v| == 8 && EthOk(eth)
    case OverGpe(s, r, f, b, v, eth) => |s| == 2 && |r| == 4 && |f| == 3 && |v| == 4 && (eth.Some? ==> EthOk(eth.value))
    case OverGre(c, k, n, low, eth) =>
      OptOk(c, 4) && OptOk(k, 4) && OptOk(n, 4) && low < 0x1000 && (eth.Some? ==> EthOk(eth.value))
    case OverIp => true
  }

  function Proto(l: L4): Byte {
    match l case Udp(_, _, _) => IPPROTO_UDP case Tcp(_, _, _, _) => IPPROTO_TCP case Other(p) => p
  }

  function L4LenOf(l: L4): nat {
    match l case Udp(_, _, _) => UDP_LEN case Tcp(_, w, _, _) => 4 * w case Other(_) => 0
  }

  function TypeOf(ip: Ip): nat {
    if ip.V4? then TYPE_IPV4 else TYPE_IPV6
  }

  function Word(n: nat): (b: seq<Byte>)
    requires n < 0x1_0000
    ensures |b| == 2
  {
    [n / 256, n % 256]
  }

  function L4Bytes(l: L4): seq<Byte>
    requires L4Ok(l)
  {
    match l
    case Udp(s, d, r) => s + Word(d) + r
    case Tcp(s, w, low, r) => s + [w * 16 + low] + r
    case Other(_) => []
  }

  function IpBytes(ip: Ip, proto: Byte): (b: seq<Byte>)
    requires IpOk(ip)
    ensures |b| == if ip.V4? then 4 * ip.ihl else IPV6_LEN
  {
    match ip
    case V4(ihl, mid, more) => [0x40 + ihl] + mid + [proto] + more
    case V6(low, mid, more) => [0x60 + low] + mid + [proto] + more
  }

  function EthBytes(e: Eth, kind: nat): (b: seq<Byte>)
    requires EthOk(e) && kind < 0x1_0000
    ensures |b| == if e.tci.Some? then ETH_LEN + VLAN_LEN else ETH_LEN
  {
    e.addrs + (if e.tci.Some? then Word(TYPE_VLAN) + e.tci.value else []) + Word(kind)
  }

  function OptBytes(o: Option<seq<Byte>>): seq<Byte> {
    if o.Some? then o.value else []
  }

  function OptEth(e: Option<Eth>, kind: nat): seq<Byte>
    requires kind < 0x1_0000 && (e.Some? ==> EthOk(e.value))
  {
    if e.Some? then EthBytes(e.value, kind) else []
  }

  function Bit(b: bool, weight: nat): nat {
    if b then weight else 0
  }

  function GreFlags(e: Encap): (f: nat)
    requires e.OverGre? && EncapOk(e)
    ensures f < 0x1_0000
  {
    Bit(e.csum.Some?, 0x8000) + Bit(e.key.Some?, 0x2000) + Bit(e.number.Some?, 0x1000) + e.low
  }

  /** The next-protocol byte of VXLAN-GPE: 0 and 1 both mean IPv4. */
  function GpeProto(e: Encap, kind: nat): Byte
    requires e.OverGpe?
  {
    if e.inEth.Some? then 3 else if kind == TYPE_IPV6 then 2 else if e.bare then 0 else 1
  }

  /** The headers between the outer IP header and the inner packet, which is of type `kind`. */
  function EncapBytes(e: Encap, kind: nat, gpePort: nat): seq<Byte>
    requires EncapOk(e) && kind < 0x1_0000 && gpePort < 0x1_0000
  {
    match e
    case OverVxlan(s, port, r, v, eth) => s + Word(port) + r + v + EthBytes(eth, kind)
    case OverGpe(s, r, f, b, v, eth) => s + Word(gpePort) + r + (f + [GpeProto(e, kind)] + v) + OptEth(eth, kind)
    case OverGre(c, k, n, low, eth) =>
      Word(GreFlags(e)) + Word(if eth.Some? then TYPE_TEB else kind)
      + (OptBytes(c) + OptBytes(k) + OptBytes(n)) + OptEth(eth, kind)
    case OverIp => []
  }

  function EncapProto(e: Encap): Byte {
    match e
    case OverVxlan(_, _, _, _, _) => IPPROTO_UDP
    case OverGpe(_, _, _, _, _, _) => IPPROTO_UDP
    case OverGre(_, _, _, _, _) => IPPROTO_GRE
    case OverIp => IPPROTO_IPIP
  }

  /** Ether / (vlan) / IP / UDP|TCP|other. */
  function PlainBytes(eth: Eth, ip: Ip, l4: L4): seq<Byte>
    requires EthOk(eth) && IpOk(ip) && L4Ok(l4)
  {
    EthBytes(eth, TypeOf(ip)) + (IpBytes(ip, Proto(l4)) + L4Bytes(l4))
  }

  /** Ether / (vlan) / outer IP / encapsulation / inner IP / UDP|TCP|other. */
  function TunnelBytes(eth: Eth, outer: Ip, e: Encap, inner: Ip, l4: L4, gpePort: nat): seq<Byte>
    requires EthOk(eth) && IpOk(outer) && EncapOk(e) && IpOk(inner) && L4Ok(l4) && gpePort < 0x1_0000
  {
    EthBytes(eth, TypeOf(outer))
    + (IpBytes(outer, EncapProto(e)) + (EncapBytes(e, TypeOf(inner), gpePort) + (IpBytes(inner, Proto(l4)) + L4Bytes(l4))))
  }

  // ---------------------------------------------------------------- memory

  /** The bytes b are at address at. */
  ghost predicate Has(m: Mem, at: nat, b: seq<Byte>) {
    forall k | 0 <= k < |b| :: m(at + k) == b[k]
  }

  lemma HasSplit(m: Mem, at: nat, a: seq<Byte>, b: seq<Byte>)
    requires Has(m, at, a + b)
    ensures Has(m, at, a) && Has(m, at + |a|, b)
  {
    forall k | 0 <= k < |a| ensures m(at + k) == a[k] {
      assert (a + b)[k] == a[k];
    }
    forall k | 0 <= k < |b| ensures m(at + |a| + k) == b[k] {
      assert (a + b)[|a| + k] == b[k] && m(at + (|a| + k)) == (a + b)[|a| + k];
    }
  }

  lemma HasJoin(m: Mem, at: nat, a: seq<Byte>, b: seq<Byte>)
    requires Has(m, at, a) && Has(m, at + |a|, b)
    ensures Has(m, at, a + b)
  {
    forall k | 0 <= k < |a + b| ensures m(at + k) == (a + b)[k] {
      if k >= |a| { assert m(at + |a| + (k - |a|)) == b[k - |a|]; }
    }
  }

  lemma ReadWord(m: Mem, at: nat, n: nat)
    requires n < 0x1_0000 && Has(m, at, Word(n))
    ensures Be16(m, at) == n
  {
    assert m(at + 0) == Word(n)[0] && m(at + 1) == Word(n)[1];
  }

  lemma ReadByte(m: Mem, at: nat, b: Byte)
    requires Has(m, at, [b])
    ensures m(at) == b
  {
    assert m(at + 0) == [b][0];
  }

  // ---------------------------------------------------------------- each layer is found

  function IpLen(ip: Ip): nat {
    if ip.V4? then 4 * ip.ihl else IPV6_LEN
  }

  function EthLen(e: Eth): nat {
    if e.tci.Some? then ETH_LEN + VLAN_LEN else ETH_LEN
  }

  /** The result of parsing an IP header of the given kind. */
  function IpAt(m: Mem, at: nat, kind: nat, i: Info): Info {
    if kind == TYPE_IPV4 then Ipv4(m, at, i) else Ipv6(m, at, i)
  }

  function WithIp(m: Mem, at: nat, ip: Ip, proto: Byte, i: Info): Info {
    i.(l3Len := IpLen(ip), l4Proto := proto, l4Len := L4Length(m, at + IpLen(ip), proto))
  }

  lemma IpHeader(m: Mem, at: nat, ip: Ip, proto: Byte, i: Info)
    requires IpOk(ip) && Has(m, at, IpBytes(ip, proto))
    ensures IpAt(m, at, TypeOf(ip), i) == WithIp(m, at, ip, proto, i)
    ensures m(at) / 16 == if ip.V4? then 4 else 6
  {
    hide L4Length;
    var b := IpBytes(ip, proto);
    assert m(at + 0) == b[0];
    if ip.V4? {
      assert m(at + 9) == b[9] == proto;
    } else {
      assert m(at + 6) == b[6] == proto;
    }
  }

  lemma L4Header(m: Mem, at: nat, l4: L4)
    requires L4Ok(l4) && Has(m, at, L4Bytes(l4))
    ensures L4Length(m, at, Proto(l4)) == L4LenOf(l4)
  {
    if l4.Tcp? {
      assert m(at + 12) == L4Bytes(l4)[12] == l4.words * 16 + l4.low;
    }
  }

  /** An IP header and what follows it. */
  lemma IpAndL4(m: Mem, at: nat, ip: Ip, l4: L4, i: Info)
    requires IpOk(ip) && L4Ok(l4) && Has(m, at, IpBytes(ip, Proto(l4)) + L4Bytes(l4))
    ensures IpAt(m, at, TypeOf(ip), i) == Layers(i, ip, l4)
    ensures m(at) / 16 == if ip.V4? then 4 else 6
  {
    hide Has, IpBytes, L4Bytes, IpAt, L4Length;
    HasSplit(m, at, IpBytes(ip, Proto(l4)), L4Bytes(l4));
    IpHeader(m, at, ip, Proto(l4), i);
    L4Header(m, at + IpLen(ip), l4);
  }

  /** The layer fields that belong to an IP header and its transport header. */
  function Layers(i: Info, ip: Ip, l4: L4): Info {
    i.(l3Len := IpLen(ip), l4Proto := Proto(l4), l4Len := L4LenOf(l4))
  }

  /** The type field of a frame; a frame without a VLAN header cannot have the type of one. */
  lemma EthType(m: Mem, at: nat, e: Eth, kind: nat)
    requires EthOk(e) && kind < 0x1_0000 && (e.tci.None? ==> kind != TYPE_VLAN) && Has(m, at, EthBytes(e, kind))
    ensures Be16(m, at + EthLen(e) - 2) == kind
    ensures Be16(m, at + 12) == TYPE_VLAN <==> e.tci.Some?
  {
    var vlan := if e.tci.Some? then Word(TYPE_VLAN) + e.tci.value else [];
    HasSplit(m, at, e.addrs + vlan, Word(kind));
    ReadWord(m, at + EthLen(e) - 2, kind);
    if e.tci.Some? {
      HasSplit(m, at, e.addrs, vlan);
      HasSplit(m, at + 12, Word(TYPE_VLAN), e.tci.value);
      ReadWord(m, at + 12, TYPE_VLAN);
    }
  }

  lemma EthHeader(m: Mem, at: nat, e: Eth, ip: Ip, i: Info)
    requires EthOk(e) && Has(m, at, EthBytes(e, TypeOf(ip)))
    ensures Ethernet(m, at, i) == IpAt(m, at + EthLen(e), TypeOf(ip), i.(l2Len := EthLen(e), ethertype := TypeOf(ip)))
  {
    EthType(m, at, e, TypeOf(ip));
    hide Ipv4, Ipv6, Be16, Has;
  }

  /** A type the dissector does not look into; a second VLAN header is one. */
  predicate OtherType(e: Eth, kind: nat) {
    kind < 0x1_0000 && kind != TYPE_IPV4 && kind != TYPE_IPV6 && (e.tci.None? ==> kind != TYPE_VLAN)
  }

  /** The record of a frame of another type: a length and a type, and nothing of the packet before. */
  function BareFrame(i: Info, e: Eth, kind: nat): Info {
    i.(l2Len := EthLen(e), ethertype := kind, l3Len := 0, l4Len := 0, l4Proto := 0)
  }

  lemma OtherFrame(m: Mem, at: nat, e: Eth, kind: nat, i: Info)
    requires EthOk(e) && OtherType(e, kind) && Has(m, at, EthBytes(e, kind))
    ensures Ethernet(m, at, i) == BareFrame(i, e, kind)
  {
    EthType(m, at, e, kind);
    hide Be16, Has;
  }

  /** A whole Ethernet packet with one IP header. */
  lemma EtherPacket(m: Mem, at: nat, e: Eth, ip: Ip, l4: L4, i: Info)
    requires EthOk(e) && IpOk(ip) && L4Ok(l4) && Has(m, at, PlainBytes(e, ip, l4))
    ensures Ethernet(m, at, i) == Layers(i.(l2Len := EthLen(e), ethertype := TypeOf(ip)), ip, l4)
  {
    hide Has, Ethernet, EthBytes, IpBytes, L4Bytes, IpAt;
    HasSplit(m, at, EthBytes(e, TypeOf(ip)), IpBytes(ip, Proto(l4)) + L4Bytes(l4));
    EthHeader(m, at, e, ip, i);
    IpAndL4(m, at + EthLen(e), ip, l4, i.(l2Len := EthLen(e), ethertype := TypeOf(ip)));
  }

  // ---------------------------------------------------------------- each encapsulation is found

  function OptEthLen(e: Option<Eth>): nat {
    if e.Some? then EthLen(e.value) else 0
  }

  /** Bytes between the end of the outer IP header and the inner IP header. */
  function InnerL2(e: Encap): nat {
    match e
    case OverVxlan(_, _, _, _, eth) => UDP_LEN + VXLAN_LEN + EthLen(eth)
    case OverGpe(_, _, _, _, _, eth) => UDP_LEN + VXLAN_LEN + OptEthLen(eth)
    case OverGre(c, k, n, _, eth) => GreWords(c, k, n) + OptEthLen(eth)
    case OverIp => 0
  }

  function GreWords(c: Option<seq<Byte>>, k: Option<seq<Byte>>, n: Option<seq<Byte>>): nat {
    GRE_LEN + Bit(c.Some?, GRE_EXT_LEN) + Bit(k.Some?, GRE_EXT_LEN) + Bit(n.Some?, GRE_EXT_LEN)
  }

  /** The header fields once the tunnel is seen. */
  function Found(i: Info, e: Encap, inner: Ip, l4: L4): Info {
    var j := if e.OverIp? then Outwards(i) else OutwardsL4(i);
    Layers(j.(l2Len := InnerL2(e), ethertype := TypeOf(inner)), inner, l4)
  }

  function IpPacket(ip: Ip, l4: L4): seq<Byte>
    requires IpOk(ip) && L4Ok(l4)
  {
    IpBytes(ip, Proto(l4)) + L4Bytes(l4)
  }

  lemma InsideEther(m: Mem, at: nat, i: Info, eth: Eth, ip: Ip, l4: L4, gap: nat)
    requires EthOk(eth) && IpOk(ip) && L4Ok(l4) && Has(m, at, EthBytes(eth, TypeOf(ip)) + IpPacket(ip, l4))
    ensures (Inside(m, at, i, TYPE_TEB, gap)
             == Layers(i.(l2Len := gap + EthLen(eth), ethertype := TypeOf(ip)), ip, l4))
  {
    hide Has, Ethernet, EthBytes, IpBytes, L4Bytes;
    EtherPacket(m, at, eth, ip, l4, i);
  }

  lemma InsideBare(m: Mem, at: nat, i: Info, ip: Ip, l4: L4, gap: nat)
    requires IpOk(ip) && L4Ok(l4) && Has(m, at, IpPacket(ip, l4))
    ensures (Inside(m, at, i, TypeOf(ip), gap)
             == Layers(i.(l2Len := gap, ethertype := TypeOf(ip)), ip, l4))
  {
    hide Has, IpBytes, L4Bytes, L4Length;
    IpAndL4(m, at, ip, l4, i);
  }

  /** The inner packet, with or without an Ethernet header of its own. */
  lemma InsideFound(m: Mem, at: nat, i: Info, eth: Option<Eth>, ip: Ip, l4: L4, gap: nat)
    requires (eth.Some? ==> EthOk(eth.value)) && IpOk(ip) && L4Ok(l4)
    requires Has(m, at, OptEth(eth, TypeOf(ip)) + IpPacket(ip, l4))
    ensures (Inside(m, at, i, if eth.Some? then TYPE_TEB else TypeOf(ip), gap)
             == Layers(i.(l2Len := gap + OptEthLen(eth), ethertype := TypeOf(ip)), ip, l4))
  {
    hide Has, Inside, EthBytes, IpPacket, Layers, TypeOf;
    if eth.Some? {
      InsideEther(m, at, i, eth.value, ip, l4, gap);
    } else {
      assert [] + IpPacket(ip, l4) == IpPacket(ip, l4);
      InsideBare(m, at, i, ip, l4, gap);
    }
  }

  /** The UDP header in front of a VXLAN header. */
  lemma UdpHeader(m: Mem, at: nat, src: seq<Byte>, port: nat, lenSum: seq<Byte>)
    requires |src| == 2 && port < 0x1_0000 && Has(m, at, src + Word(port) + lenSum)
    ensures Be16(m, at + 2) == port
  {
    hide Has, Word;
    HasSplit(m, at, src + Word(port), lenSum);
    HasSplit(m, at, src, Word(port));
    ReadWord(m, at + 2, port);
  }

  lemma VxlanRead(m: Mem, at: nat, e: Encap, kind: nat, ip: seq<Byte>, gpePort: nat)
    requires e.OverVxlan? && EncapOk(e) && gpePort < 0x1_0000 && kind < 0x1_0000
    requires Has(m, at, EncapBytes(e, kind, gpePort) + ip)
    ensures Be16(m, at + 2) == e.port && m(at + UDP_LEN + 3) == e.vxlan[3]
    ensures Has(m, at + UDP_LEN + VXLAN_LEN, EthBytes(e.eth, kind) + ip)
  {
    var eth, udp := EthBytes(e.eth, kind), e.srcPort + Word(e.port) + e.lenSum;
    HasSplit(m, at, EncapBytes(e, kind, gpePort), ip);
    assert m(at + UDP_LEN + 3) == e.vxlan[3] by {
      HasSplit(m, at, udp + e.vxlan, eth);
      HasSplit(m, at, udp, e.vxlan);
      assert m(at + UDP_LEN + 3) == e.vxlan[3];
    }
    hide Has, Word, EthBytes;
    HasSplit(m, at, udp + e.vxlan, eth);
    HasSplit(m, at, udp, e.vxlan);
    UdpHeader(m, at, e.srcPort, e.port, e.lenSum);
    HasJoin(m, at + UDP_LEN + VXLAN_LEN, eth, ip);
  }

  /** Whether the dissector sees a VXLAN packet as one.  On the VXLAN-GPE port the fourth byte is read as
      a next protocol, which does no harm when it stands for Ethernet or for nothing; elsewhere the
      port is 4789 or the packet was marked as a tunnel packet on reception. */
  predicate SeenAsSuch(e: Encap, gpePort: nat, marked: bool)
    requires EncapOk(e)
  {
    e.OverVxlan? ==>
      if e.port == gpePort && e.vxlan[3] <= 3 then e.vxlan[3] == 3 else e.port == VXLAN_PORT || marked
  }

  lemma VxlanFound(m: Mem, at: nat, i: Info, e: Encap, inner: Ip, l4: L4, gpePort: nat, marked: bool)
    requires e.OverVxlan? && EncapOk(e) && IpOk(inner) && L4Ok(l4) && gpePort < 0x1_0000
    requires !i.isTunnel && i.l4Proto == IPPROTO_UDP
    requires Has(m, at, EncapBytes(e, TypeOf(inner), gpePort) + IpPacket(inner, l4))
    ensures Tunnel(m, at, i, gpePort, marked) == Found(i, e, inner, l4) <==> SeenAsSuch(e, gpePort, marked)
    ensures var r := Tunnel(m, at, i, gpePort, marked);
            !SeenAsSuch(e, gpePort, marked) ==> r == i || r.l2Len == UDP_LEN + VXLAN_LEN
  {
    hide Has, Ethernet, EthBytes, EncapBytes, IpBytes, L4Bytes, Be16, L4Length;
    VxlanRead(m, at, e, TypeOf(inner), IpPacket(inner, l4), gpePort);
    EtherPacket(m, at + UDP_LEN + VXLAN_LEN, e.eth, inner, l4, OutwardsL4(i));
  }

  lemma GpeRead(m: Mem, at: nat, e: Encap, kind: nat, ip: seq<Byte>, gpePort: nat)
    requires e.OverGpe? && EncapOk(e) && gpePort < 0x1_0000 && kind < 0x1_0000
    requires Has(m, at, EncapBytes(e, kind, gpePort) + ip)
    ensures Be16(m, at + 2) == gpePort && m(at + UDP_LEN + 3) == GpeProto(e, kind)
    ensures Has(m, at + UDP_LEN + VXLAN_LEN, OptEth(e.inEth, kind) + ip)
  {
    var eth, udp := OptEth(e.inEth, kind), e.srcPort + Word(gpePort) + e.lenSum;
    var proto := GpeProto(e, kind);
    HasSplit(m, at, EncapBytes(e, kind, gpePort), ip);
    hide Has, Word, OptEth, GpeProto;
    HasSplit(m, at, udp + (e.flags + [proto] + e.vni), eth);
    HasSplit(m, at, udp, e.flags + [proto] + e.vni);
    HasSplit(m, at + UDP_LEN, e.flags + [proto], e.vni);
    HasSplit(m, at + UDP_LEN, e.flags, [proto]);
    UdpHeader(m, at, e.srcPort, gpePort, e.lenSum);
    ReadByte(m, at + UDP_LEN + 3, proto);
    HasJoin(m, at + UDP_LEN + VXLAN_LEN, eth, ip);
  }

  lemma GpeFound(m: Mem, at: nat, i: Info, e: Encap, inner: Ip, l4: L4, gpePort: nat, marked: bool)
    requires e.OverGpe? && EncapOk(e) && IpOk(inner) && L4Ok(l4) && gpePort < 0x1_0000
    requires !i.isTunnel && i.l4Proto == IPPROTO_UDP
    requires Has(m, at, EncapBytes(e, TypeOf(inner), gpePort) + IpPacket(inner, l4))
    ensures Tunnel(m, at, i, gpePort, marked) == Found(i, e, inner, l4)
  {
    hide Has, Ethernet, OptEth, EncapBytes, IpBytes, L4Bytes, Inside, Vxlan, Be16;
    GpeRead(m, at, e, TypeOf(inner), IpPacket(inner, l4), gpePort);
    InsideFound(m, at + UDP_LEN + VXLAN_LEN, OutwardsL4(i), e.inEth, inner, l4, UDP_LEN + VXLAN_LEN);
  }

  /** The optional words are exactly those whose flags are set. */
  lemma GreLengthIs(e: Encap)
    requires e.OverGre? && EncapOk(e)
    ensures GreLength(GreFlags(e)) == GreWords(e.csum, e.key, e.number)
  {
    var f := GreFlags(e);
    assert f / 0x1000 == Bit(e.csum.Some?, 8) + Bit(e.key.Some?, 2) + Bit(e.number.Some?, 1);
    assert f / 0x2000 == f / 0x1000 / 2 && f / 0x8000 == f / 0x1000 / 8;
  }

  lemma GreRead(m: Mem, at: nat, e: Encap, kind: nat, ip: seq<Byte>, gpePort: nat)
    requires e.OverGre? && EncapOk(e) && gpePort < 0x1_0000 && kind < 0x1_0000
    requires Has(m, at, EncapBytes(e, kind, gpePort) + ip)
    ensures Be16(m, at) == GreFlags(e) && Be16(m, at + 2) == if e.inEth.Some? then TYPE_TEB else kind
    ensures Has(m, at + GreWords(e.csum, e.key, e.number), OptEth(e.inEth, kind) + ip)
  {
    var eth := OptEth(e.inEth, kind);
    var words := OptBytes(e.csum) + OptBytes(e.key) + OptBytes(e.number);
    var outer := if e.inEth.Some? then TYPE_TEB else kind;
    HasSplit(m, at, EncapBytes(e, kind, gpePort), ip);
    hide Has, Word, OptEth, GreFlags;
    HasSplit(m, at, Word(GreFlags(e)) + Word(outer) + words, eth);
    HasSplit(m, at, Word(GreFlags(e)) + Word(outer), words);
    HasSplit(m, at, Word(GreFlags(e)), Word(outer));
    ReadWord(m, at, GreFlags(e));
    ReadWord(m, at + 2, outer);
    HasJoin(m, at + GreWords(e.csum, e.key, e.number), eth, ip);
  }

  lemma GreFound(m: Mem, at: nat, i: Info, e: Encap, inner: Ip, l4: L4, gpePort: nat, marked: bool)
    requires e.OverGre? && EncapOk(e) && IpOk(inner) && L4Ok(l4) && gpePort < 0x1_0000
    requires !i.isTunnel && i.l4Proto == IPPROTO_GRE
    requires Has(m, at, EncapBytes(e, TypeOf(inner), gpePort) + IpPacket(inner, l4))
    ensures Tunnel(m, at, i, gpePort, marked) == Found(i, e, inner, l4)
  {
    hide Has, Ethernet, OptEth, EncapBytes, IpBytes, L4Bytes, Inside, Be16, GreLength, GreFlags, GreWords;
    GreLengthIs(e);
    GreRead(m, at, e, TypeOf(inner), IpPacket(inner, l4), gpePort);
    InsideFound(m, at + GreWords(e.csum, e.key, e.number), OutwardsL4(i), e.inEth, inner, l4,
                GreWords(e.csum, e.key, e.number));
  }

  lemma IpHasNoGap(e: Encap, kind: nat, gpePort: nat, ip: seq<Byte>)
    requires e.OverIp? && kind < 0x1_0000 && gpePort < 0x1_0000
    ensures EncapBytes(e, kind, gpePort) + ip == ip && [] + ip == ip
  {}

  lemma IpInIpFound(m: Mem, at: nat, i: Info, e: Encap, inner: Ip, l4: L4, gpePort: nat, marked: bool)
    requires e.OverIp? && IpOk(inner) && L4Ok(l4) && gpePort < 0x1_0000
    requires !i.isTunnel && i.l4Proto == IPPROTO_IPIP
    requires Has(m, at, EncapBytes(e, TypeOf(inner), gpePort) + IpPacket(inner, l4))
    ensures Tunnel(m, at, i, gpePort, marked) == Found(i, e, inner, l4)
  {
    IpHasNoGap(e, TypeOf(inner), gpePort, IpPacket(inner, l4));
    hide Has, IpBytes, L4Bytes, Inside, EncapBytes, L4Length;
    IpAndL4(m, at, inner, l4, i);
    InsideFound(m, at, Outwards(i), None, inner, l4, 0);
  }

  lemma TunnelFound(m: Mem, at: nat, i: Info, e: Encap, inner: Ip, l4: L4, gpePort: nat, marked: bool)
    requires EncapOk(e) && IpOk(inner) && L4Ok(l4) && gpePort < 0x1_0000
    requires !i.isTunnel && i.l4Proto == EncapProto(e)
    requires Has(m, at, EncapBytes(e, TypeOf(inner), gpePort) + IpPacket(inner, l4))
    ensures SeenAsSuch(e, gpePort, marked) ==> Tunnel(m, at, i, gpePort, marked) == Found(i, e, inner, l4)
    ensures var r := Tunnel(m, at, i, gpePort, marked);
            !SeenAsSuch(e, gpePort, marked) ==> !r.isTunnel || r.l2Len != InnerL2(e)
  {
    hide Has, EncapBytes, IpPacket, Tunnel, Found;
    match e
    case OverVxlan(_, _, _, _, _) => VxlanFound(m, at, i, e, inner, l4, gpePort, marked);
    case OverGpe(_, _, _, _, _, _) => GpeFound(m, at, i, e, inner, l4, gpePort, marked);
    case OverGre(_, _, _, _, _) => GreFound(m, at, i, e, inner, l4, gpePort, marked);
    case OverIp => IpInIpFound(m, at, i, e, inner, l4, gpePort, marked);
  }

  lemma EncapLength(e: Encap, kind: nat, gpePort: nat)
    requires EncapOk(e) && kind < 0x1_0000 && gpePort < 0x1_0000
    ensures |EncapBytes(e, kind, gpePort)| == InnerL2(e)
  {}

  // ---------------------------------------------------------------- the whole packet

  /** What the first Ethernet and IP header leave, whatever follows. */
  lemma FirstHeaders(m: Mem, e: Eth, ip: Ip, proto: Byte, rest: seq<Byte>, i: Info)
    requires EthOk(e) && IpOk(ip) && Has(m, 0, EthBytes(e, TypeOf(ip)) + (IpBytes(ip, proto) + rest))
    ensures var j := Ethernet(m, 0, i);
            && j == i.(l2Len := EthLen(e), ethertype := TypeOf(ip), l3Len := IpLen(ip), l4Proto := proto, l4Len := j.l4Len)
            && j.l4Len == L4Length(m, EthLen(e) + IpLen(ip), proto)
    ensures Has(m, EthLen(e) + IpLen(ip), rest)
  {
    hide Has, Ethernet, EthBytes, IpBytes, L4Length, IpAt;
    HasSplit(m, 0, EthBytes(e, TypeOf(ip)), IpBytes(ip, proto) + rest);
    HasSplit(m, EthLen(e), IpBytes(ip, proto), rest);
    EthHeader(m, 0, e, ip, i);
    IpHeader(m, EthLen(e), ip, proto, i.(l2Len := EthLen(e), ethertype := TypeOf(ip)));
  }

  /** The record of a tunnelled packet is right: the three l2/l3 lengths add up to the position of
      the inner IP header, and every other field is that of its layer. */
  predicate TakenApart(r: Info, eth: Eth, outer: Ip, e: Encap, inner: Ip, l4: L4, gpePort: nat, stale: Info)
    requires EthOk(eth) && IpOk(outer) && EncapOk(e) && IpOk(inner) && L4Ok(l4) && gpePort < 0x1_0000
  {
    && r.isTunnel
    && r.outerL2Len == EthLen(eth) && r.outerL3Len == IpLen(outer) && r.outerEthertype == TypeOf(outer)
    && (r.outerL2Len + r.outerL3Len + r.l2Len
        == |EthBytes(eth, TypeOf(outer)) + IpBytes(outer, EncapProto(e)) + EncapBytes(e, TypeOf(inner), gpePort)|)
    && r.ethertype == TypeOf(inner) && r.l3Len == |IpBytes(inner, Proto(l4))|
    && r.l4Proto == Proto(l4) && r.l4Len == L4LenOf(l4)
    && r.outerL4Proto == if e.OverIp? then stale.outerL4Proto else EncapProto(e)
  }

  /** Main result: a tunnelled packet of the grammar is taken apart correctly, whatever was left by
      the packet before and whatever lies in memory behind it, unless it is a VXLAN packet on a port
      of its own that was not marked, or one read as VXLAN-GPE; exactly then. */
  lemma DissectsTunnel(m: Mem, eth: Eth, outer: Ip, e: Encap, inner: Ip, l4: L4, gpePort: nat, stale: Info, marked: bool)
    requires EthOk(eth) && IpOk(outer) && EncapOk(e) && IpOk(inner) && L4Ok(l4) && gpePort < 0x1_0000
    requires Has(m, 0, TunnelBytes(eth, outer, e, inner, l4, gpePort))
    ensures (TakenApart(Packet(m, stale, gpePort, marked), eth, outer, e, inner, l4, gpePort, stale)
             <==> SeenAsSuch(e, gpePort, marked))
  {
    hide Has, Ethernet, EncapBytes, L4Length, Tunnel, EthBytes, IpBytes, L4Bytes, SeenAsSuch, InnerL2;
    var i := stale.(isTunnel := false);
    FirstHeaders(m, eth, outer, EncapProto(e), EncapBytes(e, TypeOf(inner), gpePort) + IpPacket(inner, l4), i);
    TunnelFound(m, EthLen(eth) + IpLen(outer), Ethernet(m, 0, i), e, inner, l4, gpePort, marked);
    EncapLength(e, TypeOf(inner), gpePort);
  }

  /** RFC 7348, section 5: the three bytes after the flags are zero.  So with the VXLAN-GPE port
      set to 4789 no standard VXLAN packet is taken apart correctly; here is one. */
  lemma StandardVxlanTakenForGpe(marked: bool) returns (e: Encap)
    ensures EncapOk(e) && e.OverVxlan? && e.port == VXLAN_PORT && e.vxlan == [8, 0, 0, 0, 0, 0, 1, 0]
    ensures !SeenAsSuch(e, VXLAN_PORT, marked)
    ensures forall d: Encap | EncapOk(d) && d.OverVxlan? && d.port == VXLAN_PORT && d.vxlan[1..4] == [0, 0, 0] ::
              !SeenAsSuch(d, VXLAN_PORT, marked)
  {
    e := OverVxlan([0, 0], VXLAN_PORT, [0, 50, 0, 0], [8, 0, 0, 0, 0, 0, 1, 0], Eth(seq(12, _ => 0), None));
    forall d: Encap | EncapOk(d) && d.OverVxlan? && d.port == VXLAN_PORT && d.vxlan[1..4] == [0, 0, 0]
      ensures !SeenAsSuch(d, VXLAN_PORT, marked)
    {
      assert d.vxlan[1..4][2] == d.vxlan[3];
    }
  }

  /** A frame of any type but IPv4 and IPv6, with or without a VLAN header: whatever the packet before
      was and whatever the frame holds, no tunnel is seen and no layer above Ethernet is reported. */
  lemma DissectsOther(m: Mem, eth: Eth, kind: nat, gpePort: nat, stale: Info, marked: bool)
    requires EthOk(eth) && OtherType(eth, kind) && Has(m, 0, EthBytes(eth, kind))
    ensures var r := Packet(m, stale, gpePort, marked);
            && !r.isTunnel && r.l3Len == 0 && r.l4Len == 0 && r.l4Proto == 0
            && r.l2Len == |EthBytes(eth, kind)| && r.ethertype == kind
  {
    hide Ethernet, EthBytes;
    OtherFrame(m, 0, eth, kind, stale.(isTunnel := false));
  }

  /** Encapsulations whose inner packet begins with an Ethernet header, and that header. */
  function InnerEth(e: Encap): Option<Eth> {
    match e
    case OverVxlan(_, _, _, _, eth) => Some(eth)
    case OverGpe(_, _, _, _, _, eth) => eth
    case OverGre(_, _, _, _, eth) => eth
    case OverIp => None
  }

  /** The header fields once a tunnel with such an inner frame is seen. */
  function FoundFrame(i: Info, e: Encap, kind: nat): Info {
    OutwardsL4(i).(l2Len := InnerL2(e), ethertype := kind, l3Len := 0, l4Len := 0, l4Proto := 0)
  }

  lemma InsideOther(m: Mem, at: nat, i: Info, eth: Eth, kind: nat, gap: nat)
    requires EthOk(eth) && OtherType(eth, kind) && Has(m, at, EthBytes(eth, kind) + [])
    ensures (Inside(m, at, i, TYPE_TEB, gap)
             == i.(l2Len := EthLen(eth) + gap, ethertype := kind, l3Len := 0, l4Len := 0, l4Proto := 0))
  {
    HasSplit(m, at, EthBytes(eth, kind), []);
    OtherFrame(m, at, eth, kind, i);
    hide Ethernet, Has, EthBytes;
  }

  lemma VxlanOther(m: Mem, at: nat, i: Info, e: Encap, kind: nat, gpePort: nat, marked: bool)
    requires e.OverVxlan? && EncapOk(e) && OtherType(e.eth, kind) && gpePort < 0x1_0000
    requires SeenAsSuch(e, gpePort, marked) && !i.isTunnel && i.l4Proto == IPPROTO_UDP
    requires Has(m, at, EncapBytes(e, kind, gpePort) + [])
    ensures Tunnel(m, at, i, gpePort, marked) == FoundFrame(i, e, kind)
  {
    VxlanRead(m, at, e, kind, [], gpePort);
    InsideOther(m, at + UDP_LEN + VXLAN_LEN, OutwardsL4(i), e.eth, kind, UDP_LEN + VXLAN_LEN);
    hide Has, Ethernet, EthBytes, EncapBytes, Be16;
  }

  lemma GpeOther(m: Mem, at: nat, i: Info, e: Encap, kind: nat, gpePort: nat, marked: bool)
    requires e.OverGpe? && EncapOk(e) && e.inEth.Some? && OtherType(e.inEth.value, kind) && gpePort < 0x1_0000
    requires !i.isTunnel && i.l4Proto == IPPROTO_UDP && Has(m, at, EncapBytes(e, kind, gpePort) + [])
    ensures Tunnel(m, at, i, gpePort, marked) == FoundFrame(i, e, kind)
  {
    GpeRead(m, at, e, kind, [], gpePort);
    InsideOther(m, at + UDP_LEN + VXLAN_LEN, OutwardsL4(i), e.inEth.value, kind, UDP_LEN + VXLAN_LEN);
    hide Has, Ethernet, EthBytes, EncapBytes, Inside, Vxlan, Be16;
  }

  lemma GreOther(m: Mem, at: nat, i: Info, e: Encap, kind: nat, gpePort: nat, marked: bool)
    requires e.OverGre? && EncapOk(e) && e.inEth.Some? && OtherType(e.inEth.value, kind) && gpePort < 0x1_0000
    requires !i.isTunnel && i.l4Proto == IPPROTO_GRE && Has(m, at, EncapBytes(e, kind, gpePort) + [])
    ensures Tunnel(m, at, i, gpePort, marked) == FoundFrame(i, e, kind)
  {
    GreLengthIs(e);
    GreRead(m, at, e, kind, [], gpePort);
    InsideOther(m, at + GreWords(e.csum, e.key, e.number), OutwardsL4(i), e.inEth.value, kind, GreWords(e.csum, e.key, e.number));
    hide Has, Ethernet, EthBytes, EncapBytes, Inside, Be16, GreLength, GreFlags, GreWords;
  }

  /** A tunnelled Ethernet frame of another type: the tunnel is seen, and inside it no layer above
      Ethernet is reported. */
  lemma TunnelledOther(m: Mem, eth: Eth, outer: Ip, e: Encap, kind: nat, gpePort: nat, stale: Info, marked: bool)
    requires EthOk(eth) && IpOk(outer) && EncapOk(e) && gpePort < 0x1_0000 && SeenAsSuch(e, gpePort, marked)
    requires InnerEth(e).Some? && OtherType(InnerEth(e).value, kind)
    requires Has(m, 0, EthBytes(eth, TypeOf(outer)) + (IpBytes(outer, EncapProto(e)) + (EncapBytes(e, kind, gpePort) + [])))
    ensures var r := Packet(m, stale, gpePort, marked);
            && r.isTunnel && r.l3Len == 0 && r.l4Len == 0 && r.l4Proto == 0 && r.ethertype == kind
            && r.outerL2Len == EthLen(eth) && r.outerL3Len == IpLen(outer) && r.outerEthertype == TypeOf(outer)
            && r.outerL4Proto == EncapProto(e) && r.l2Len == |EncapBytes(e, kind, gpePort)|
  {
    hide Has, Ethernet, EncapBytes, L4Length, Tunnel, EthBytes, IpBytes, SeenAsSuch;
    var i := stale.(isTunnel := false);
    FirstHeaders(m, eth, outer, EncapProto(e), EncapBytes(e, kind, gpePort) + [], i);
    var at, j := EthLen(eth) + IpLen(outer), Ethernet(m, 0, i);
    EncapLength(e, kind, gpePort);
    match e
    case OverVxlan(_, _, _, _, _) => VxlanOther(m, at, j, e, kind, gpePort, marked);
    case OverGpe(_, _, _, _, _, _) => GpeOther(m, at, j, e, kind, gpePort, marked);
    case OverGre(_, _, _, _, _) => GreOther(m, at, j, e, kind, gpePort, marked);
  }

  /** What announces a tunnel after the first IP header, by its protocol and the bytes behind it. */
  predicate Announces(proto: Byte, rest: seq<Byte>, gpePort: nat, marked: bool)
    requires proto == IPPROTO_UDP ==> |rest| >= 12
    requires proto == IPPROTO_GRE ==> |rest| >= 4
    requires proto == IPPROTO_IPIP ==> |rest| >= 1
  {
    if proto == IPPROTO_UDP then
      var port := (rest[2] as nat) * 256 + rest[3] as nat;
      marked || port == VXLAN_PORT || (port == gpePort && rest[11] <= 3)
    else if proto == IPPROTO_GRE then
      var kind := (rest[2] as nat) * 256 + rest[3] as nat;
      kind == TYPE_IPV4 || kind == TYPE_IPV6 || kind == TYPE_TEB
    else proto == IPPROTO_IPIP && (rest[0] / 16 == 4 || rest[0] / 16 == 6)
  }

  lemma TunnelIff(m: Mem, at: nat, i: Info, rest: seq<Byte>, gpePort: nat, marked: bool)
    requires !i.isTunnel && Has(m, at, rest) && i.l4Proto < 256
    requires i.l4Proto == IPPROTO_UDP ==> |rest| >= 12
    requires i.l4Proto == IPPROTO_GRE ==> |rest| >= 4
    requires i.l4Proto == IPPROTO_IPIP ==> |rest| >= 1
    ensures Tunnel(m, at, i, gpePort, marked).isTunnel <==> Announces(i.l4Proto, rest, gpePort, marked)
  {
    TunnelOrNothing(m, at, i, gpePort, marked);
    hide Ethernet, Inside, GreLength;
    if |rest| >= 1 { assert m(at + 0) == rest[0]; }
    if |rest| >= 4 { assert m(at + 2) == rest[2] && m(at + 3) == rest[3]; }
    if |rest| >= 12 { assert m(at + 11) == rest[11]; }
  }

  /** Exactly when a packet is taken for a tunnel; when it is not, the record is that of its own
      headers. */
  lemma TunnelSeenIff(m: Mem, eth: Eth, ip: Ip, proto: Byte, rest: seq<Byte>, gpePort: nat, stale: Info, marked: bool)
    requires EthOk(eth) && IpOk(ip) && Has(m, 0, EthBytes(eth, TypeOf(ip)) + (IpBytes(ip, proto) + rest))
    requires proto == IPPROTO_UDP ==> |rest| >= 12
    requires proto == IPPROTO_GRE ==> |rest| >= 4
    requires proto == IPPROTO_IPIP ==> |rest| >= 1
    ensures var r := Packet(m, stale, gpePort, marked);
            && (r.isTunnel <==> Announces(proto, rest, gpePort, marked))
            && (!r.isTunnel ==>
                  && r.l2Len == EthLen(eth) && r.ethertype == TypeOf(ip) && r.l3Len == IpLen(ip) && r.l4Proto == proto
                  && r.l4Len == L4Length(m, EthLen(eth) + IpLen(ip), proto))
  {
    hide Has, Ethernet, EthBytes, IpBytes, L4Length, Tunnel, Announces;
    var i := stale.(isTunnel := false);
    FirstHeaders(m, eth, ip, proto, rest, i);
    TunnelIff(m, EthLen(eth) + IpLen(ip), Ethernet(m, 0, i), rest, gpePort, marked);
    TunnelOrNothing(m, EthLen(eth) + IpLen(ip), Ethernet(m, 0, i), gpePort, marked);
  }

  /** Transport protocols that do not announce a tunnel. */
  predicate NoTunnel(l4: L4, gpePort: nat, marked: bool) {
    match l4
    case Udp(_, d, _) => d != VXLAN_PORT && d != gpePort && !marked
    case Tcp(_, _, _, _) => true
    case Other(p) => p != IPPROTO_GRE && p != IPPROTO_IPIP
  }

  lemma DissectsPlain(m: Mem, eth: Eth, ip: Ip, l4: L4, gpePort: nat, stale: Info, marked: bool)
    requires EthOk(eth) && IpOk(ip) && L4Ok(l4) && NoTunnel(l4, gpePort, marked)
    requires Has(m, 0, PlainBytes(eth, ip, l4))
    ensures var r := Packet(m, stale, gpePort, marked);
            && !r.isTunnel && r.l2Len == |EthBytes(eth, TypeOf(ip))| && r.ethertype == TypeOf(ip)
            && r.l3Len == |IpBytes(ip, Proto(l4))| && r.l4Proto == Proto(l4) && r.l4Len == L4LenOf(l4)
  {
    hide Ethernet, L4Length, EthBytes, IpBytes;
    FirstHeaders(m, eth, ip, Proto(l4), L4Bytes(l4), stale.(isTunnel := false));
    L4Header(m, EthLen(eth) + IpLen(ip), l4);
    if l4.Udp? {
      UdpHeader(m, EthLen(eth) + IpLen(ip), l4.srcPort, l4.dstPort, l4.lenSum);
    }
  }

  /** IPv6 in IP under its own protocol number, 41, is not seen as a tunnel: what is recorded is
      the outer header. */
  lemma Protocol41IsNoTunnel(m: Mem, eth: Eth, outer: Ip, inner: seq<Byte>, gpePort: nat, stale: Info, marked: bool)
    requires EthOk(eth) && IpOk(outer)
    requires Has(m, 0, EthBytes(eth, TypeOf(outer)) + (IpBytes(outer, IPPROTO_IPV6) + inner))
    ensures var r := Packet(m, stale, gpePort, marked);
            !r.isTunnel && r.l2Len == EthLen(eth) && r.l3Len == IpLen(outer) && r.l4Proto == IPPROTO_IPV6 && r.l4Len == 0
  {
    hide Has, Ethernet, EthBytes, IpBytes;
    FirstHeaders(m, eth, outer, IPPROTO_IPV6, inner, stale.(isTunnel := false));
  }

  /** Parsing inner headers leaves the record of the outer ones alone. */
  predicate SameOuter(i: Info, j: Info) {
    && i.isTunnel == j.isTunnel && i.outerEthertype == j.outerEthertype && i.outerL2Len == j.outerL2Len
    && i.outerL3Len == j.outerL3Len && i.outerL4Proto == j.outerL4Proto
  }

  lemma EthernetKeepsOuter(m: Mem, at: nat, i: Info)
    ensures SameOuter(Ethernet(m, at, i), i)
  {}

  lemma InsideKeepsOuter(m: Mem, at: nat, i: Info, kind: nat, gap: nat)
    ensures SameOuter(Inside(m, at, i, kind, gap), i)
  {
    EthernetKeepsOuter(m, at, i);
  }

  /** For any memory at all: either no tunnel is seen and nothing changes, or the lengths found
      so far become the outer ones. */
  lemma TunnelOrNothing(m: Mem, l4: nat, i: Info, gpePort: nat, marked: bool)
    requires !i.isTunnel
    ensures var r := Tunnel(m, l4, i, gpePort, marked);
            if r.isTunnel then
              r.outerEthertype == i.ethertype && r.outerL2Len == i.l2Len && r.outerL3Len == i.l3Len
            else r == i
  {
    hide Ethernet, Be16, GreLength;
    var flags, proto := Be16(m, l4), m(l4 + UDP_LEN + 3);
    EthernetKeepsOuter(m, l4 + UDP_LEN + VXLAN_LEN, OutwardsL4(i));
    InsideKeepsOuter(m, l4 + UDP_LEN + VXLAN_LEN, OutwardsL4(i), GpeKind(proto), UDP_LEN + VXLAN_LEN);
    InsideKeepsOuter(m, l4 + GreLength(flags), OutwardsL4(i), Be16(m, l4 + 2), GreLength(flags));
    InsideKeepsOuter(m, l4, Outwards(i), TYPE_IPV4, 0);
    InsideKeepsOuter(m, l4, Outwards(i), TYPE_IPV6, 0);
  }

  // ---------------------------------------------------------------- the code

  /** The info structure shared by all packets of a burst. */
  class Offload {
    const gpePort: nat
    var ethertype: nat
    var l2Len: nat
    var l3Len: nat
    var l4Len: nat
    var l4Proto: nat
    var isTunnel: bool
    var outerEthertype: nat
    var outerL2Len: nat
    var outerL3Len: nat
    var outerL4Proto: nat

    ghost function State(): Info
      reads this
    {
      Info(ethertype, l2Len, l3Len, l4Len, l4Proto, isTunnel, outerEthertype, outerL2Len, outerL3Len, outerL4Proto)
    }

    constructor (gpePort: nat)
      ensures this.gpePort == gpePort && State() == Info(0, 0, 0, 0, 0, false, 0, 0, 0, 0)
    {
      this.gpePort := gpePort;
      ethertype, l2Len, l3Len, l4Len, l4Proto, isTunnel := 0, 0, 0, 0, 0, false;
      outerEthertype, outerL2Len, outerL3Len, outerL4Proto := 0, 0, 0, 0;
    }

    method ParseIpv4(m: Mem, at: nat)
      modifies this
      ensures State() == Ipv4(m, at, old(State()))
    {
      l3Len := m(at) % 16 * 4;
      l4Proto := m(at + 9);
      if l4Proto == IPPROTO_TCP {
        l4Len := m(at + l3Len + 12) / 16 * 4;
      } else if l4Proto == IPPROTO_UDP {
        l4Len := UDP_LEN;
      } else {
        l4Len := 0;
      }
    }

    method ParseIpv6(m: Mem, at: nat)
      modifies this
      ensures State() == Ipv6(m, at, old(State()))
    {
      l3Len := IPV6_LEN;
      l4Proto := m(at + 6);
      if l4Proto == IPPROTO_TCP {
        l4Len := m(at + l3Len + 12) / 16 * 4;
      } else if l4Proto == IPPROTO_UDP {
        l4Len := UDP_LEN;
      } else {
        l4Len := 0;
      }
    }

    method ParseEthernet(m: Mem, at: nat)
      modifies this
      ensures State() == Ethernet(m, at, old(State()))
    {
      hide Ipv4, Ipv6, Be16;
      l2Len := ETH_LEN;
      ethertype := Be16(m, at + 12);
      if ethertype == TYPE_VLAN {
        l2Len := l2Len + VLAN_LEN;
        ethertype := Be16(m, at + ETH_LEN + 2);
      }
      if ethertype == TYPE_IPV4 {
        ParseIpv4(m, at + l2Len);
      } else if ethertype == TYPE_IPV6 {
        ParseIpv6(m, at + l2Len);
      } else {
        l4Len := 0;
        l3Len := 0;
        l4Proto := 0;
      }
    }

    method ParseVxlan(m: Mem, udp: nat, marked: bool)
      modifies this
      ensures State() == Vxlan(m, udp, old(State()), marked)
    {
      hide Ethernet, Be16;
      if Be16(m, udp + 2) != VXLAN_PORT && !marked { return; }
      isTunnel := true;
      outerEthertype := ethertype;
      outerL2Len := l2Len;
      outerL3Len := l3Len;
      outerL4Proto := l4Proto;
      ParseEthernet(m, udp + UDP_LEN + VXLAN_LEN);
      l2Len := l2Len + (UDP_LEN + VXLAN_LEN);
    }

    method ParseVxlanGpe(m: Mem, udp: nat)
      modifies this
      ensures State() == VxlanGpe(m, udp, old(State()), gpePort)
    {
      hide Ethernet, Ipv4, Ipv6, Be16;
      if Be16(m, udp + 2) != gpePort { return; }
      var gpe := udp + UDP_LEN;
      var proto := m(gpe + 3);
      if proto == 0 || proto == 1 {
        isTunnel := true;
        outerEthertype := ethertype;
        outerL2Len := l2Len;
        outerL3Len := l3Len;
        outerL4Proto := l4Proto;
        ParseIpv4(m, gpe + VXLAN_LEN);
        ethertype := TYPE_IPV4;
        l2Len := 0;
      } else if proto == 2 {
        isTunnel := true;
        outerEthertype := ethertype;
        outerL2Len := l2Len;
        outerL3Len := l3Len;
        outerL4Proto := l4Proto;
        ethertype := TYPE_IPV6;
        EtherTypeFirst(m, gpe + VXLAN_LEN);
        ParseIpv6(m, gpe + VXLAN_LEN);
        l2Len := 0;
      } else if proto == 3 {
        isTunnel := true;
        outerEthertype := ethertype;
        outerL2Len := l2Len;
        outerL3Len := l3Len;
        outerL4Proto := l4Proto;
        ParseEthernet(m, gpe + VXLAN_LEN);
      } else {
        return;
      }
      l2Len := l2Len + (UDP_LEN + VXLAN_LEN);
    }

    method GreHeaderLength(flags: nat) returns (greLen: nat)
      ensures greLen == GreLength(flags)
    {
      greLen := GRE_LEN;
      if flags / 0x2000 % 2 == 1 { greLen := greLen + GRE_EXT_LEN; }
      if flags / 0x1000 % 2 == 1 { greLen := greLen + GRE_EXT_LEN; }
      if flags / 0x8000 % 2 == 1 { greLen := greLen + GRE_EXT_LEN; }
    }

    method ParseGre(m: Mem, at: nat)
      modifies this
      ensures State() == Gre(m, at, old(State()))
    {
      hide Ethernet, Ipv4, Ipv6, Be16;
      hide GreLength;
      var proto := Be16(m, at + 2);
      var greLen := GreHeaderLength(Be16(m, at));
      if proto == TYPE_IPV4 {
        isTunnel := true;
        outerEthertype := ethertype;
        outerL2Len := l2Len;
        outerL3Len := l3Len;
        outerL4Proto := l4Proto;
        ParseIpv4(m, at + greLen);
        ethertype := TYPE_IPV4;
        l2Len := 0;
      } else if proto == TYPE_IPV6 {
        isTunnel := true;
        outerEthertype := ethertype;
        outerL2Len := l2Len;
        outerL3Len := l3Len;
        outerL4Proto := l4Proto;
        ethertype := TYPE_IPV6;
        EtherTypeFirst(m, at + greLen);
        ParseIpv6(m, at + greLen);
        l2Len := 0;
      } else if proto == TYPE_TEB {
        isTunnel := true;
        outerEthertype := ethertype;
        outerL2Len := l2Len;
        outerL3Len := l3Len;
        outerL4Proto := l4Proto;
        ParseEthernet(m, at + greLen);
      } else {
        return;
      }
      l2Len := l2Len + greLen;
    }

    method ParseEncapIp(m: Mem, at: nat)
      modifies this
      ensures State() == EncapIp(m, at, old(State()))
    {
      hide Ipv4, Ipv6;
      var version := m(at) / 16;
      if version != 4 && version != 6 { return; }
      isTunnel := true;
      outerEthertype := ethertype;
      outerL2Len := l2Len;
      outerL3Len := l3Len;
      if version == 4 {
        ParseIpv4(m, at);
        ethertype := TYPE_IPV4;
      } else {
        ParseIpv6(m, at);
        ethertype := TYPE_IPV6;
      }
      l2Len := 0;
    }

    /** Parsing an IPv6 header does not look at the EtherType. */
    lemma EtherTypeFirst(m: Mem, at: nat)
      ensures forall i: Info, t: nat :: Ipv6(m, at, i.(ethertype := t)) == Ipv6(m, at, i).(ethertype := t)
    {}

    /** Step 1 of pkt_burst_checksum_forward for one packet: the positions of the inner (or only)
        and, for a tunnel, the outer IP header. */
    method DissectPacket(m: Mem, parseTunnel: bool, marked: bool) returns (l3: nat, outerL3: nat)
      modifies this
      ensures (State() == if parseTunnel then Packet(m, old(State()), gpePort, marked)
                          else Ethernet(m, 0, old(State()).(isTunnel := false)))
      ensures isTunnel ==> outerL3 == outerL2Len && l3 == outerL2Len + outerL3Len + l2Len
      ensures !isTunnel ==> l3 == l2Len
    {
      hide Ethernet, Vxlan, VxlanGpe, Gre, EncapIp;
      isTunnel := false;
      assert State() == old(State()).(isTunnel := false);
      ParseEthernet(m, 0);
      ghost var first := State();
      EthernetKeepsOuter(m, 0, old(State()).(isTunnel := false));
      TunnelOrNothing(m, l2Len + l3Len, first, gpePort, marked);
      l3, outerL3 := l2Len, 0;
      if parseTunnel {
        if l4Proto == IPPROTO_UDP {
          var udp := l3 + l3Len;
          ParseVxlanGpe(m, udp);
          if !isTunnel {
            ParseVxlan(m, udp, marked);
          }
        } else if l4Proto == IPPROTO_GRE {
          ParseGre(m, l3 + l3Len);
        } else if l4Proto == IPPROTO_IPIP {
          ParseEncapIp(m, l3 + l3Len);
        }
      }
      assert parseTunnel ==> State() == Tunnel(m, first.l2Len + first.l3Len, first, gpePort, marked);
      if isTunnel {
        outerL3 := l3;
        l3 := l3 + outerL3Len + l2Len;
      }
    }
  }
}
