/** Header generation in place: socket/EthernetUtils.cpp and socket/EthernetUtils.h.
    Addresses of IPv4 are `uint32_t` values whose bytes in memory are already in
    network order. */
module EthernetUtils {
  import opened Wrappers
  import opened Bytes
  import opened Checksum
  import opened Wire
  import MulticastMac

  const MAC_SIZE := 6
  const ARP_HDR_SIZE := 42
  const ETHERTYPE_ARP := 0x0806

  // ----- stores -----

  /** `s` with `bs` written over it at `at`. */
  function Overwritten(s: seq<byte>, at: nat, bs: seq<byte>): (r: seq<byte>)
    requires at + |bs| <= |s|
    ensures |r| == |s|
    ensures forall k :: 0 <= k < |s| ==> r[k] == if at <= k < at + |bs| then bs[k - at] else s[k]
  {
    s[..at] + bs + s[at + |bs|..]
  }

  /** A 16-bit value in network order. */
  function Port(p: u16): (s: seq<byte>)
    ensures |s| == 2
    ensures Word(s[0], s[1]) == p
  {
    [p / 256, p % 256]
  }

  /** `*(uint16_t*)(a + at) = htons(v)`. */
  method StoreHtons(a: array<byte>, at: nat, v: u16)
    requires at + 2 <= a.Length
    modifies a
    ensures a[..] == Put16(old(a[..]), at, v) == Overwritten(old(a[..]), at, Port(v))
  {
    HtonsStored(a[..], at, v);
    var h := Htons(v);
    a[at] := h % 256;
    a[at + 1] := h / 256;
  }

  /** `memcpy(a + at, s, |s|)`. */
  method CopyTo(a: array<byte>, at: nat, s: seq<byte>)
    requires at + |s| <= a.Length
    modifies a
    ensures a[..] == Overwritten(old(a[..]), at, s)
  {
    forall i | 0 <= i < |s| {
      a[at + i] := s[i];
    }
  }

  lemma OverwrittenTwice(s: seq<byte>, at: nat, bs: seq<byte>, cs: seq<byte>)
    requires at + |bs| + |cs| <= |s|
    ensures Overwritten(Overwritten(s, at, bs), at + |bs|, cs) == Overwritten(s, at, bs + cs)
  {
  }

  // ----- UDP -----

  /** Everything that identifies one endpoint. */
  datatype Endpoint = Endpoint(dstMac: seq<byte>, srcMac: seq<byte>, dstIp: u32, srcIp: u32, srcPort: u16, dstPort: u16)

  predicate ValidEndpoint(e: Endpoint) {
    |e.dstMac| == MAC_SIZE && |e.srcMac| == MAC_SIZE
  }

  /** The part of the IP header that is the same for all endpoints: total length and
      checksum keep what the memory held before. */
  function IpConstants(was: seq<byte>): (s: seq<byte>)
    requires |was| == 20
    ensures |s| == 12
  {
    [VERSION_IHL, 0, was[2], was[3], 0, 0, 0x40, 0, 128, IPPROTO_UDP, was[10], was[11]]
  }

  function IpFields(e: Endpoint, was: seq<byte>): (s: seq<byte>)
    requires |was| == 20
    ensures |s| == 20
  {
    IpConstants(was) + Stored(e.srcIp, 4) + Stored(e.dstIp, 4)
  }

  /** The eight bytes of the UDP header: the length keeps what was there. */
  function UdpFields(e: Endpoint, was: seq<byte>): (s: seq<byte>)
    requires |was| == 8
    ensures |s| == 8
  {
    Port(e.srcPort) + Port(e.dstPort) + was[4..6] + [0, 0]
  }

  /** Memory after GenerateUDP has filled the headers at its beginning. */
  function UdpHeader(e: Endpoint, was: seq<byte>): (s: seq<byte>)
    requires ValidEndpoint(e) && |was| >= MRP
    ensures |s| == |was|
  {
    e.dstMac + e.srcMac + Port(ETHERTYPE_IP) + IpFields(e, was[IP..UDP]) + UdpFields(e, was[UDP..MRP]) + was[MRP..]
  }

  const VERSION_TOS: seq<byte> := [VERSION_IHL, 0]
  const ID_TO_PROTOCOL: seq<byte> := [0, 0, 0x40, 0, 128, IPPROTO_UDP]

  method FillIpConstants(hdr: array<byte>)
    requires hdr.Length >= MRP
    modifies hdr
    ensures hdr[..] == Overwritten(old(hdr[..]), IP, IpConstants(old(hdr[IP..UDP])))
  {
    ghost var was := hdr[..];
    hdr[14], hdr[15] := 4 * 16 + 5, 0;  // version 4 and a header of 5 words; type of service
    assert hdr[..] == Overwritten(was, 14, VERSION_TOS);
    FillIdToProtocol(hdr);
    IpConstantsAssembled(was);
  }

  lemma IpConstantsAssembled(was: seq<byte>)
    requires |was| >= MRP
    ensures Overwritten(Overwritten(was, 14, VERSION_TOS), 18, ID_TO_PROTOCOL)
            == Overwritten(was, IP, IpConstants(was[IP..UDP]))
  {
  }

  /** Identification 0, the flag DF, time to live 128, protocol UDP. */
  method FillIdToProtocol(hdr: array<byte>)
    requires hdr.Length >= MRP
    modifies hdr
    ensures hdr[..] == Overwritten(old(hdr[..]), 18, ID_TO_PROTOCOL)
  {
    hdr[18], hdr[19], hdr[20], hdr[21], hdr[22], hdr[23] := 0, 0, 0x40, 0, 128, IPPROTO_UDP;
  }

  method FillIp(hdr: array<byte>, e: Endpoint)
    requires hdr.Length >= MRP
    modifies hdr
    ensures hdr[..] == Overwritten(old(hdr[..]), IP, IpFields(e, old(hdr[IP..UDP])))
  {
    hide Stored, IpConstants;
    ghost var was, head := hdr[..], IpConstants(hdr[IP..UDP]);
    FillIpConstants(hdr);
    CopyTo(hdr, IP_SADDR, Stored(e.srcIp, 4));
    OverwrittenTwice(was, IP, head, Stored(e.srcIp, 4));
    CopyTo(hdr, IP_DADDR, Stored(e.dstIp, 4));
    OverwrittenTwice(was, IP, head + Stored(e.srcIp, 4), Stored(e.dstIp, 4));
  }

  method FillUdp(hdr: array<byte>, e: Endpoint)
    requires hdr.Length >= MRP
    modifies hdr
    ensures hdr[..] == Overwritten(old(hdr[..]), UDP, UdpFields(e, old(hdr[UDP..MRP])))
  {
    hide Port, Put16, UdpFields;
    ghost var was := hdr[..];
    StoreHtons(hdr, 34, e.srcPort);
    StoreHtons(hdr, 36, e.dstPort);
    OverwrittenTwice(was, UDP, Port(e.srcPort), Port(e.dstPort));
    ghost var ported := hdr[..];
    hdr[40], hdr[41] := 0, 0;
    assert hdr[..] == Overwritten(ported, UDP_CHECK, [0, 0]);
    UdpAssembled(e, was);
  }

  lemma UdpAssembled(e: Endpoint, was: seq<byte>)
    requires |was| >= MRP
    ensures Overwritten(Overwritten(was, UDP, Port(e.srcPort) + Port(e.dstPort)), UDP_CHECK, [0, 0])
            == Overwritten(was, UDP, UdpFields(e, was[UDP..MRP]))
  {
    hide Port;
    var ports := Port(e.srcPort) + Port(e.dstPort);
    var a := Overwritten(Overwritten(was, UDP, ports), UDP_CHECK, [0, 0]);
    var b := Overwritten(was, UDP, UdpFields(e, was[UDP..MRP]));
    assert UdpFields(e, was[UDP..MRP]) == ports + [was[UDP_LEN], was[UDP_LEN + 1], 0, 0];
    forall k | 0 <= k < |a| ensures a[k] == b[k] {
    }
  }

  /** GenerateUDP. */
  method GenerateUdp(hdr: array<byte>, e: Endpoint)
    requires ValidEndpoint(e) && hdr.Length >= MRP
    modifies hdr
    ensures hdr[..] == UdpHeader(e, old(hdr[..]))
  {
    hide IpFields, UdpFields, Port;
    ghost var was, eth := hdr[..], e.dstMac + e.srcMac + Port(ETHERTYPE_IP);
    FillEthernet(hdr, e);
    assert hdr[IP..UDP] == was[IP..UDP];
    FillIp(hdr, e);
    assert hdr[UDP..MRP] == was[UDP..MRP];
    OverwrittenTwice(was, 0, eth, IpFields(e, was[IP..UDP]));
    FillUdp(hdr, e);
    OverwrittenTwice(was, 0, eth + IpFields(e, was[IP..UDP]), UdpFields(e, was[UDP..MRP]));
  }

  method FillEthernet(hdr: array<byte>, e: Endpoint)
    requires ValidEndpoint(e) && hdr.Length >= MRP
    modifies hdr
    ensures hdr[..] == Overwritten(old(hdr[..]), 0, e.dstMac + e.srcMac + Port(ETHERTYPE_IP))
  {
    hide Port, Put16;
    ghost var was := hdr[..];
    CopyTo(hdr, 0, e.dstMac);
    CopyTo(hdr, 6, e.srcMac);
    StoreHtons(hdr, 12, ETHERTYPE_IP);
    OverwrittenTwice(was, 0, e.dstMac, e.srcMac);
    OverwrittenTwice(was, 0, e.dstMac + e.srcMac, Port(ETHERTYPE_IP));
  }

  function Zeros(n: nat): (s: seq<byte>)
    ensures |s| == n
  {
    seq(n, _ => 0)
  }

  /** The template that Initialize keeps for an endpoint: the header over zeroed
      memory, then the requester's own address and a zero word. */
  function Template(e: Endpoint): (s: seq<byte>)
    requires ValidEndpoint(e)
    ensures |s| == FRAME_HDR
  {
    UdpHeader(e, Zeros(MRP)) + Zeros(4) + Stored(e.srcIp, 4) + Zeros(4)
  }

  /** One round of the loops of Initialize; ports are truncated to 16 bits on the way
      to GenerateUDP. */
  method MakeTemplate(dstMac: seq<byte>, srcMac: seq<byte>, dstIp: u32, srcIp: u32, sourcePort: u32, destinationPort: u32)
    returns (hdr: array<byte>)
    requires |dstMac| == MAC_SIZE && |srcMac| == MAC_SIZE
    ensures fresh(hdr)
    ensures hdr[..] == Template(Endpoint(dstMac, srcMac, dstIp, srcIp, Trunc16(sourcePort), Trunc16(destinationPort)))
  {
    var e := Endpoint(dstMac, srcMac, dstIp, srcIp, Trunc16(sourcePort), Trunc16(destinationPort));
    hdr := new byte[FRAME_HDR](_ => 0);
    assert hdr[..] == Zeros(FRAME_HDR);
    GenerateUdp(hdr, e);
    ghost var h := hdr[..];
    CopyTo(hdr, MRP_IP, Stored(srcIp, 4));
    CopyTo(hdr, MRP_IP + 4, Zeros(4));
    OverwrittenTwice(h, MRP_IP, Stored(srcIp, 4), Zeros(4));
    TemplateFromHeader(e);
  }

  lemma TemplateFromHeader(e: Endpoint)
    requires ValidEndpoint(e)
    ensures var h := UdpHeader(e, Zeros(FRAME_HDR));
            h[..46] + Stored(e.srcIp, 4) + Zeros(4) == Template(e)
  {
    var h, g := UdpHeader(e, Zeros(FRAME_HDR)), UdpHeader(e, Zeros(MRP));
    assert Zeros(FRAME_HDR)[IP..UDP] == Zeros(MRP)[IP..UDP];
    assert Zeros(FRAME_HDR)[UDP..MRP] == Zeros(MRP)[UDP..MRP];
    assert Zeros(FRAME_HDR)[MRP..] == Zeros(12) && Zeros(MRP)[MRP..] == [];
    assert h == g + Zeros(12);
    assert h[..46] == g + Zeros(4);
  }

  /** A template byte by byte: Ethernet with type IPv4; version 4, five words, no type of
      service, identification 0, "don't fragment", time to live 128, UDP; the two
      addresses; the ports; the requester's address. Lengths, checksums and counts are
      still zero. */
  lemma TemplateLayout(e: Endpoint)
    requires ValidEndpoint(e)
    ensures Template(e) ==
            e.dstMac + e.srcMac + [0x08, 0x00]
            + [0x45, 0, 0, 0, 0, 0, 0x40, 0x00, 128, 17, 0, 0] + Stored(e.srcIp, 4) + Stored(e.dstIp, 4)
            + [e.srcPort / 256, e.srcPort % 256, e.dstPort / 256, e.dstPort % 256, 0, 0, 0, 0]
            + [0, 0, 0, 0] + Stored(e.srcIp, 4) + [0, 0, 0, 0]
  {
    hide Stored;
    assert Port(ETHERTYPE_IP) == [0x08, 0x00];
    var was := Zeros(MRP);
    assert IpConstants(was[IP..UDP]) == [0x45, 0, 0, 0, 0, 0, 0x40, 0x00, 128, 17, 0, 0];
    assert was[UDP..MRP] == Zeros(8) && was[MRP..] == [] && Zeros(8)[4..6] == Zeros(2) == [0, 0];
    assert UdpFields(e, was[UDP..MRP]) ==
           [e.srcPort / 256, e.srcPort % 256, e.dstPort / 256, e.dstPort % 256, 0, 0, 0, 0];
    assert Zeros(4) == [0, 0, 0, 0];
  }

  /** Of every request frame: no type of service, identification 0, "don't fragment",
      time to live 128; so no receiver takes it for a fragment. */
  lemma FrameIsNoFragment(e: Endpoint, hs: seq<TriggerRawHdr>)
    requires ValidEndpoint(e)
    ensures var f := MrpFrame(Template(e), hs);
            && Net16(f, 12) == 0x0800 && f[14] == 0x45 && f[15] == 0 && Net16(f, 18) == 0
            && Net16(f, 20) == 0x4000 && f[22] == 128 && f[23] == 17 && !IsFragment(f)
  {
    hide MrpFrame, Template, Stored, Payload, Trunc16;
    var t := Template(e);
    TemplateConstants(e);
    FrameFields(t, hs);
  }

  lemma MiddleAt(head: seq<byte>, mid: seq<byte>, rest: seq<byte>, k: nat)
    requires k < |mid|
    ensures (head + mid + rest)[|head| + k] == mid[k]
  {
  }

  lemma Regrouped(a: seq<byte>, b: seq<byte>, c: seq<byte>, d: seq<byte>, e: seq<byte>,
                  f: seq<byte>, g: seq<byte>, h: seq<byte>, i: seq<byte>, j: seq<byte>)
    ensures a + b + c + d + e + f + g + h + i + j == (a + b) + (c + d) + (e + f + g + h + i + j)
  {
    assert a + b + c + d == (a + b) + (c + d);
  }

  lemma TemplateConstants(e: Endpoint)
    requires ValidEndpoint(e)
    ensures var t := Template(e);
            && Net16(t, 12) == 0x0800 && t[14] == 0x45 && t[15] == 0 && Net16(t, 18) == 0
            && Net16(t, 20) == 0x4000 && t[22] == 128 && t[23] == 17
  {
    hide Template, Stored;
    TemplateLayout(e);
    var ethernet, ip: seq<byte> := [0x08, 0x00], [0x45, 0, 0, 0, 0, 0, 0x40, 0x00, 128, 17, 0, 0];
    var ports: seq<byte> := [e.srcPort / 256, e.srcPort % 256, e.dstPort / 256, e.dstPort % 256, 0, 0, 0, 0];
    var zero: seq<byte> := [0, 0, 0, 0];
    Regrouped(e.dstMac, e.srcMac, ethernet, ip, Stored(e.srcIp, 4), Stored(e.dstIp, 4), ports, zero, Stored(e.srcIp, 4), zero);
    ConstantsAt(e.dstMac + e.srcMac, ethernet, ip,
                Stored(e.srcIp, 4) + Stored(e.dstIp, 4) + ports + zero + Stored(e.srcIp, 4) + zero);
  }

  lemma ConstantsAt(head: seq<byte>, ethernet: seq<byte>, ip: seq<byte>, rest: seq<byte>)
    requires |head| == 12 && |ethernet| == 2 && |ip| == 12
    ensures var t := head + (ethernet + ip) + rest;
            && t[12] == ethernet[0] && t[13] == ethernet[1] && t[14] == ip[0] && t[15] == ip[1]
            && t[18] == ip[4] && t[19] == ip[5] && t[20] == ip[6] && t[21] == ip[7] && t[22] == ip[8] && t[23] == ip[9]
  {
    var mid := ethernet + ip;
    MiddleAt(head, mid, rest, 0);
    MiddleAt(head, mid, rest, 1);
    MiddleAt(head, mid, rest, 2);
    MiddleAt(head, mid, rest, 3);
    MiddleAt(head, mid, rest, 6);
    MiddleAt(head, mid, rest, 7);
    MiddleAt(head, mid, rest, 8);
    MiddleAt(head, mid, rest, 9);
    MiddleAt(head, mid, rest, 10);
    MiddleAt(head, mid, rest, 11);
  }

  /** A template is valid, and a receiver of any frame built from it learns exactly
      the endpoint's addresses and ports and the requester's address. */
  lemma TemplateIdentifiesEndpoint(e: Endpoint)
    requires ValidEndpoint(e)
    ensures var t := Template(e);
            && ValidTemplate(t)
            && t[..6] == e.dstMac && t[6..12] == e.srcMac
            && t[IP_SADDR..IP_DADDR] == Stored(e.srcIp, 4) && t[IP_DADDR..UDP] == Stored(e.dstIp, 4)
            && Net16(t, UDP) == e.srcPort && Net16(t, UDP + 2) == e.dstPort
            && t[MRP_IP..MRP_IP + 4] == Stored(e.srcIp, 4)
  {
    hide Stored, Template;
    TemplateLayout(e);
  }

  /** The wire round trip in terms of endpoint and events: for every batch of at most
      5457 triggers the receiver recovers who asked whom for what. */
  lemma EndpointRoundTrip(e: Endpoint, hs: seq<TriggerRawHdr>)
    requires ValidEndpoint(e) && |hs| <= MAX_COHERENT
    ensures Decode(MrpFrame(Template(e), hs)) ==
            Some(Mrp(e.dstMac, e.srcMac, Stored(e.srcIp, 4), Stored(e.dstIp, 4), e.srcPort, e.dstPort,
                     Stored(e.srcIp, 4), Decoded(hs)))
  {
    hide Decode, MrpFrame, Template, ValidTemplate;
    TemplateIdentifiesEndpoint(e);
    FrameRoundTrip(Template(e), hs);
  }

  // ----- multicast endpoints -----

  function Octets(bs: seq<bv8>): (s: seq<byte>)
    ensures |s| == |bs|
  {
    seq(|bs|, i requires 0 <= i < |bs| => bs[i] as int)
  }

  /** The octets of a group's address, as they lie in memory. */
  function GroupBytes(group: bv32): (s: seq<byte>)
    ensures |s| == 4
  {
    [MulticastMac.Octet0(group) as int, MulticastMac.Octet1(group) as int,
     MulticastMac.Octet2(group) as int, MulticastMac.Octet3(group) as int]
  }

  /** The `uint32_t` whose memory holds these octets. */
  function Address(group: bv32): (a: u32)
    ensures Stored(a, 4) == GroupBytes(group)
  {
    StoredHostValue(GroupBytes(group));
    Widths();
    HostValue(GroupBytes(group))
  }

  /** The Ethernet address of a group by section 6.4 of RFC 1112: 01-00-5E and the low
      23 bits of the IP address. */
  function Rfc1112Mac(ip: seq<byte>): seq<byte>
    requires |ip| == 4
  {
    [0x01, 0x00, 0x5e, ip[1] % 128, ip[2], ip[3]]
  }

  lemma SevenBits(x: bv8)
    ensures (x & 0x7f) as int == (x as int) % 128
  {
  }

  lemma GroupMac(group: bv32)
    ensures Octets(MulticastMac.Mac(group)) == Rfc1112Mac(GroupBytes(group))
  {
    hide MulticastMac.Octet0, MulticastMac.Octet1, MulticastMac.Octet2, MulticastMac.Octet3, MulticastMac.Masked;
    MulticastMac.MaskedBytes(group);
    SevenBits(MulticastMac.Octet1(group));
  }

  /** One round of the multicast loop of Initialize. */
  method MakeMulticastTemplate(group: bv32, srcMac: seq<byte>, srcIp: u32, sourcePort: u32, destinationPort: u32)
    returns (hdr: array<byte>)
    requires |srcMac| == MAC_SIZE
    ensures fresh(hdr)
    ensures hdr[..] == Template(MulticastEndpoint(group, srcMac, srcIp, Trunc16(sourcePort), Trunc16(destinationPort)))
    ensures hdr.Length == 54
    ensures hdr[..6] == Rfc1112Mac(GroupBytes(group)) && hdr[6..12] == srcMac
    ensures hdr[26..30] == hdr[46..50] == Stored(srcIp, 4) && hdr[30..34] == GroupBytes(group)
    ensures Net16(hdr[..], 34) == Trunc16(sourcePort) && Net16(hdr[..], 36) == Trunc16(destinationPort)
  {
    hide Template, MulticastMac.Mac, GroupBytes, Stored, Trunc16, ValidTemplate;
    var mac := MulticastMac.GenerateMulticastMac(group);
    GroupMac(group);
    hdr := MakeTemplate(Octets(mac[..]), srcMac, Address(group), srcIp, sourcePort, destinationPort);
    TemplateIdentifiesEndpoint(MulticastEndpoint(group, srcMac, srcIp, Trunc16(sourcePort), Trunc16(destinationPort)));
    ghost var t := hdr[..];
    assert hdr[..6] == t[..6] && hdr[6..12] == t[6..12] && hdr[26..30] == t[26..30];
    assert hdr[30..34] == t[30..34] && hdr[46..50] == t[46..50];
  }

  function MulticastEndpoint(group: bv32, srcMac: seq<byte>, srcIp: u32, srcPort: u16, dstPort: u16): (e: Endpoint)
    requires |srcMac| == MAC_SIZE
    ensures ValidEndpoint(e)
  {
    Endpoint(Octets(MulticastMac.Mac(group)), srcMac, Address(group), srcIp, srcPort, dstPort)
  }

  /** Whatever the group, the decoded multicast request is addressed to that group at
      the Ethernet address that RFC 1112 assigns to it, comes from the requester's
      addresses and ports as they were passed in, and asks for the packed triggers. */
  lemma MulticastRoundTrip(group: bv32, srcMac: seq<byte>, srcIp: u32, srcPort: u16, dstPort: u16, hs: seq<TriggerRawHdr>)
    requires |srcMac| == MAC_SIZE && |hs| <= MAX_COHERENT
    ensures Decode(MrpFrame(Template(MulticastEndpoint(group, srcMac, srcIp, srcPort, dstPort)), hs)) ==
            Some(Mrp(Rfc1112Mac(GroupBytes(group)), srcMac, Stored(srcIp, 4), GroupBytes(group), srcPort, dstPort,
                     Stored(srcIp, 4), Decoded(hs)))
  {
    hide Decode, MrpFrame, Template, Rfc1112Mac, GroupBytes, Stored;
    GroupMac(group);
    EndpointRoundTrip(MulticastEndpoint(group, srcMac, srcIp, srcPort, dstPort), hs);
  }

  /** An endpoint of the group 239.1.2.3, asked by 10.0.0.1. */
  function SampleEndpoint(): (e: Endpoint)
    ensures ValidEndpoint(e)
  {
    Endpoint([0x01, 0x00, 0x5e, 0x01, 0x02, 0x03], [0x00, 0x1b, 0x21, 0x01, 0x02, 0x03],
             0x0302_01ef, 0x0100_000a, 58913, 58914)
  }

  lemma SampleAddresses()
    ensures Stored(0x0302_01ef, 4) == [239, 1, 2, 3] && Stored(0x0100_000a, 4) == [10, 0, 0, 1]
  {
    assert Stored(0x0302, 2) == [2, 3] && Stored(0x0302_01ef, 4) == [239, 1] + Stored(0x0302, 2);
    assert Stored(0x0100, 2) == [0, 1] && Stored(0x0100_000a, 4) == [10, 0] + Stored(0x0100, 2);
  }

  lemma NetSumOfEight(a: seq<byte>, b: seq<byte>)
    requires |a| == 4 && |b| == 4
    ensures NetSum(a + b) == Word(a[0], a[1]) + Word(a[2], a[3]) + Word(b[0], b[1]) + Word(b[2], b[3])
  {
    hide Word, NetSum;
    NetSumConcat(a, b, 2);
    NetSumOfFour(a[0], a[1], a[2], a[3]);
    NetSumOfFour(b[0], b[1], b[2], b[3]);
    assert a == [a[0], a[1], a[2], a[3]] && b == [b[0], b[1], b[2], b[3]];
  }

  /** The part of the covered sum that the endpoint contributes. */
  lemma EndpointSum(e: Endpoint, hs: seq<TriggerRawHdr>)
    requires ValidEndpoint(e)
    ensures var a, b := Stored(e.srcIp, 4), Stored(e.dstIp, 4);
            RequestSum(Template(e), hs) ==
            e.srcPort + e.dstPort + 2 * (Word(a[0], a[1]) + Word(a[2], a[3])) + Word(b[0], b[1]) + Word(b[2], b[3])
            + NetSum(Payload(hs)) + 69 + 37 * |hs|
  {
    hide NetSum, Payload, Stored, Word, IpConstants;
    var t := Template(e);
    NetSumOfEight(Stored(e.srcIp, 4), Stored(e.dstIp, 4));
    NetSumOfEight(Stored(e.srcIp, 4), Zeros(4));
    assert Word(0, 0) == 0 by { ZeroWord(); }
    PortsSum(e.srcPort, e.dstPort);
    TemplateSlices(e);
  }

  lemma ZeroWord()
    ensures Word(0, 0) == 0
  {
  }

  lemma PortsSum(p: u16, q: u16)
    ensures NetSum(Port(p) + Port(q)) == p + q
  {
    NetSumOfFour(Port(p)[0], Port(p)[1], Port(q)[0], Port(q)[1]);
    assert Port(p) + Port(q) == [Port(p)[0], Port(p)[1], Port(q)[0], Port(q)[1]];
  }

  lemma TemplateSlices(e: Endpoint)
    requires ValidEndpoint(e)
    ensures var t := Template(e);
            && t[UDP..UDP_LEN] == Port(e.srcPort) + Port(e.dstPort)
            && t[IP_SADDR..UDP] == Stored(e.srcIp, 4) + Stored(e.dstIp, 4)
            && t[MRP_IP..] == Stored(e.srcIp, 4) + Zeros(4)
  {
    hide Stored, Port, IpConstants;
  }

  /** A concrete frame without checksum in the eyes of RFC 768: this endpoint, and an
      event at time stamp 11850 with all other fields zero. */
  lemma SampleCarriesZero()
    ensures Net16(MrpFrame(Template(SampleEndpoint()), [GenerateTriggerHdr(EventAt(11850), false)]), UDP_CHECK) == 0
  {
    hide MrpFrame, Template, RequestSum, NetSum, Net16, Stored;
    var h := GenerateTriggerHdr(EventAt(11850), false);
    ZeroChecksumOfBatch(Template(SampleEndpoint()), [h]);
    EndpointSum(SampleEndpoint(), [h]);
    SampleAddresses();
    NetSumOfTrigger(11850);
    EmptyTrigger();
  }

  lemma EmptyTrigger()
    ensures NetSum(Payload([GenerateTriggerHdr(EventAt(0), false)])) == 0
  {
    var h := GenerateTriggerHdr(EventAt(0), false);
    assert h == TriggerRawHdr(0, 0, 0, 0, 0, 0) by { SwappedZero(4); SwappedZero(2); }
    assert [h][..0] == [];
    StoredZero(4);
    StoredZero(3);
    StoredZero(2);
    assert Payload([h]) == TriggerBytes(h) == Zeros(12);
    ZerosSum();
  }

  lemma {:induction false} StoredZero(n: nat)
    ensures Stored(0, n) == Zeros(n)
  {
    if n != 0 {
      StoredZero(n - 1);
    }
  }

  lemma SwappedZero(n: nat)
    ensures Swapped(0, n) == 0
  {
    StoredZero(n);
    assert Reversed(Zeros(n)) == Zeros(n);
    HostValueZero(n);
  }

  lemma {:induction false} HostValueZero(n: nat)
    ensures HostValue(Zeros(n)) == 0
  {
    if n != 0 {
      HostValueZero(n - 1);
      assert Zeros(n)[1..] == Zeros(n - 1);
    }
  }

  lemma ZerosSum()
    ensures NetSum(Zeros(12)) == 0
  {
    hide NetSum;
    assert Zeros(12) == Zeros(4) + Zeros(4) + [0, 0, 0, 0];
    NetSumConcat(Zeros(4) + Zeros(4), [0, 0, 0, 0], 4);
    NetSumOfEight(Zeros(4), Zeros(4));
    NetSumOfFour(0, 0, 0, 0);
  }

  // ----- ARP -----

  datatype Arp = Arp(senderMac: seq<byte>, senderIp: u32, targetMac: seq<byte>, targetIp: u32, operation: u16)

  predicate ValidArp(a: Arp) {
    |a.senderMac| == MAC_SIZE && |a.targetMac| == MAC_SIZE
  }

  /** Operation, hardware type Ethernet, protocol type IPv4, and the address lengths. */
  function ArpHeader(operation: u16): (s: seq<byte>)
    ensures |s| == 8
  {
    Port(1) + Port(ETHERTYPE_IP) + [6, 4] + Port(operation)
  }

  function ArpAddresses(a: Arp): (s: seq<byte>)
    requires ValidArp(a)
    ensures |s| == 20
  {
    a.senderMac + Stored(a.senderIp, 4) + a.targetMac + Stored(a.targetIp, 4)
  }

  /** An ARP frame for Ethernet and IPv4 (RFC 826). */
  function ArpFrame(a: Arp): (s: seq<byte>)
    requires ValidArp(a)
    ensures |s| == ARP_HDR_SIZE
  {
    a.targetMac + a.senderMac + Port(ETHERTYPE_ARP) + ArpHeader(a.operation) + ArpAddresses(a)
  }

  method FillArpAddresses(data: array<byte>, a: Arp)
    requires ValidArp(a) && data.Length >= ARP_HDR_SIZE
    modifies data
    ensures data[..] == Overwritten(old(data[..]), 22, ArpAddresses(a))
  {
    hide Stored;
    ghost var was := data[..];
    CopyTo(data, 22, a.senderMac);
    CopyTo(data, 28, Stored(a.senderIp, 4));
    CopyTo(data, 32, a.targetMac);
    CopyTo(data, 38, Stored(a.targetIp, 4));
    OverwrittenTwice(was, 22, a.senderMac, Stored(a.senderIp, 4));
    OverwrittenTwice(was, 22, a.senderMac + Stored(a.senderIp, 4), a.targetMac);
    OverwrittenTwice(was, 22, a.senderMac + Stored(a.senderIp, 4) + a.targetMac, Stored(a.targetIp, 4));
  }

  method FillArpHeader(data: array<byte>, operation: u16)
    requires data.Length >= ARP_HDR_SIZE
    modifies data
    ensures data[..] == Overwritten(old(data[..]), 14, ArpHeader(operation))
  {
    hide Port, Put16;
    StoreHtons(data, 14, 1);
    StoreHtons(data, 16, ETHERTYPE_IP);
    data[18] := 6;
    data[19] := 4;
    StoreHtons(data, 20, operation);
  }

  /** GenerateARPv4: 64 bytes are allocated, 42 are filled and announced. */
  method GenerateArp(a: Arp) returns (data: array<byte>, length: nat)
    requires ValidArp(a)
    ensures fresh(data) && data.Length == 64 && length == ARP_HDR_SIZE
    ensures data[..length] == ArpFrame(a)
  {
    hide ArpHeader, ArpAddresses, Put16, Port;
    data := new byte[64];
    ghost var was := data[..];
    CopyTo(data, 0, a.targetMac);
    CopyTo(data, 6, a.senderMac);
    StoreHtons(data, 12, ETHERTYPE_ARP);
    OverwrittenTwice(was, 0, a.targetMac, a.senderMac);
    OverwrittenTwice(was, 0, a.targetMac + a.senderMac, Port(ETHERTYPE_ARP));
    ghost var eth := a.targetMac + a.senderMac + Port(ETHERTYPE_ARP);
    FillArpHeader(data, a.operation);
    OverwrittenTwice(was, 0, eth, ArpHeader(a.operation));
    FillArpAddresses(data, a);
    OverwrittenTwice(was, 0, eth + ArpHeader(a.operation), ArpAddresses(a));
    length := ARP_HDR_SIZE;
    assert data[..length] == data[..][..length];
  }

  /** A receiver's reading of an ARP frame. */
  function DecodeArp(f: seq<byte>): Option<Arp> {
    if |f| >= ARP_HDR_SIZE && Net16(f, 12) == ETHERTYPE_ARP && Net16(f, 14) == 1 && Net16(f, 16) == ETHERTYPE_IP
       && f[18] == 6 && f[19] == 4 && HostValue(f[28..32]) < TWO_32 && HostValue(f[38..42]) < TWO_32
    then Some(Arp(f[22..28], HostValue(f[28..32]), f[32..38], HostValue(f[38..42]), Net16(f, 20)))
    else None
  }

  /** ARP frames are read back as they were generated, with or without the trailer
      that pads them to 60 bytes; they travel from the sender to the target. */
  lemma ArpRoundTrip(a: Arp, trailer: seq<byte>)
    requires ValidArp(a)
    ensures DecodeArp(ArpFrame(a) + trailer) == Some(a)
    ensures (ArpFrame(a) + trailer)[..6] == a.targetMac && (ArpFrame(a) + trailer)[6..12] == a.senderMac
  {
    hide ArpFrame, Stored, HostValue, Net16;
    ArpFields(a, trailer);
    Widths();
    HostValueStored(a.senderIp, 4);
    HostValueStored(a.targetIp, 4);
    hide Pow256;
  }

  lemma ArpFields(a: Arp, trailer: seq<byte>)
    requires ValidArp(a)
    ensures var f := ArpFrame(a) + trailer;
            && Net16(f, 12) == ETHERTYPE_ARP && Net16(f, 14) == 1 && Net16(f, 16) == ETHERTYPE_IP
            && f[18] == 6 && f[19] == 4 && Net16(f, 20) == a.operation
            && f[22..28] == a.senderMac && f[28..32] == Stored(a.senderIp, 4)
            && f[32..38] == a.targetMac && f[38..42] == Stored(a.targetIp, 4)
            && f[..6] == a.targetMac && f[6..12] == a.senderMac
  {
    hide Stored, Port;
    var f := ArpFrame(a) + trailer;
    assert f[12..14] == Port(ETHERTYPE_ARP) && f[14..22] == ArpHeader(a.operation) && f[22..42] == ArpAddresses(a);
    assert f[14..16] == Port(1) && f[16..18] == Port(ETHERTYPE_IP) && f[20..22] == Port(a.operation);
  }

  /** A gratuitous ARP announces the sender's own address; its Ethernet destination
      and target hardware address are both all zero, its Ethernet source the sender. */
  method GenerateGratuitousArp(mac: seq<byte>, ip: u32) returns (data: array<byte>, length: nat)
    requires |mac| == MAC_SIZE
    ensures fresh(data) && length == ARP_HDR_SIZE <= data.Length
    ensures DecodeArp(data[..length]) == Some(Arp(mac, ip, Zeros(6), ip, 1))
    ensures data[..6] == Zeros(6) && data[6..12] == mac
  {
    var a := Arp(mac, ip, Zeros(6), ip, 1);
    data, length := GenerateArp(a);
    ArpRoundTrip(a, []);
    assert ArpFrame(a) + [] == data[..length];
    assert data[..6] == data[..length][..6] == a.targetMac;
    assert data[6..12] == data[..length][6..12];
  }
}
