/** The MRP frame on the wire: Ethernet, IPv4, UDP, the MRP header and a list of
    trigger elements, byte by byte (l1/MRP.h with big-endian fields,
    structs/Network.h), and a receiver's decoder. */
module Wire {
  import opened Wrappers
  import opened Bytes
  import opened Checksum

  // Offsets in the packed structs. Ethernet 0..14, IPv4 14..34, UDP 34..42, MRP 42..54.
  const ETHER_TYPE := 12
  const IP := 14
  const IP_TOT_LEN := 16
  const IP_FRAG := 20
  const IP_PROTOCOL := 23
  const IP_CHECK := 24
  const IP_SADDR := 26
  const IP_DADDR := 30
  const UDP := 34
  const UDP_LEN := 38
  const UDP_CHECK := 40
  const MRP := 42
  const MRP_COUNT := 42
  const MRP_LENGTH := 44
  const MRP_IP := 46
  const FRAME_HDR := 54

  const IPHDR_SIZE := 20
  const UDPHDR_SIZE := 8
  const MRP_HDR_SIZE := 12
  const TRIGGER_SIZE := 12

  const ETHERTYPE_IP := 0x0800
  const IPPROTO_UDP := 17
  const VERSION_IHL := 0x45

  /** The largest batch for which no 16-bit length field is truncated. */
  const MAX_COHERENT := 5457

  // ----- trigger elements -----

  datatype Event = Event(timestamp: u32, finetime: byte, triggerTypeWord: u16, eventNumber: u32)

  /** TRIGGER_RAW_HDR, with the field values as the host holds them. */
  datatype TriggerRawHdr = TriggerRawHdr(timestamp: nat, fineTime: byte, requestZeroSuppressed: byte,
                                         triggerTypeWord: nat, reserved2: byte, eventNumber: nat)

  function GenerateTriggerHdr(event: Event, zSuppressed: bool): TriggerRawHdr {
    TriggerRawHdr(Swapped(event.timestamp, 4), event.finetime, if zSuppressed then 1 else 0,
                  Swapped(event.triggerTypeWord, 2), 0, Swapped(event.eventNumber, 4) / 256)
  }

  /** The twelve bytes of a trigger header in memory. */
  function TriggerBytes(h: TriggerRawHdr): (s: seq<byte>)
    ensures |s| == TRIGGER_SIZE
  {
    Stored(h.timestamp, 4) + [h.fineTime, h.requestZeroSuppressed] + Stored(h.triggerTypeWord, 2)
    + [h.reserved2] + Stored(h.eventNumber, 3)
  }

  /** What a trigger element asks for, as the receiver understands it. */
  datatype Request = Request(timestamp: nat, finetime: byte, zeroSuppressed: bool,
                             triggerTypeWord: nat, eventNumber: nat)

  function DecodeTrigger(s: seq<byte>): Request
    requires |s| == TRIGGER_SIZE
  {
    Request(NetValue(s[..4]), s[4], s[5] % 2 == 1, NetValue(s[6..8]), NetValue(s[9..]))
  }

  /** The request that a trigger is meant to express: 24 bits of the event number. */
  function RequestOf(event: Event, zSuppressed: bool): Request {
    Request(event.timestamp, event.finetime, zSuppressed, event.triggerTypeWord, event.eventNumber % TWO_24)
  }

  /** A trigger element is read back field by field; of the event number, the low
      24 bits survive `htonl(x) >> 8`. The zero suppression byte is 0 or 1, the reserved
      byte 0. */
  lemma TriggerRoundTrip(event: Event, zSuppressed: bool)
    ensures DecodeTrigger(TriggerBytes(GenerateTriggerHdr(event, zSuppressed))) == RequestOf(event, zSuppressed)
    ensures var s := TriggerBytes(GenerateTriggerHdr(event, zSuppressed));
            && NetValue(s[..4]) == event.timestamp && s[4] == event.finetime && s[5] == (if zSuppressed then 1 else 0)
            && NetValue(s[6..8]) == event.triggerTypeWord && s[8] == 0
            && NetValue(s[9..12]) == event.eventNumber % 0x100_0000
  {
    var h := GenerateTriggerHdr(event, zSuppressed);
    var s := TriggerBytes(h);
    assert s[..4] == Stored(h.timestamp, 4);
    assert s[6..8] == Stored(h.triggerTypeWord, 2);
    assert s[9..12] == s[9..] == Stored(h.eventNumber, 3);
    Widths();
    SwappedIsNetworkOrder(event.timestamp, 4);
    SwappedIsNetworkOrder(event.triggerTypeWord, 2);
    ShiftedSwapKeepsLowBytes(event.eventNumber, 3);
  }

  lemma Widths()
    ensures Pow256(2) == TWO_16 && Pow256(3) == TWO_24 && Pow256(4) == TWO_32
  {
    assert Pow256(1) == 256;
  }

  /** The trigger elements of an MRP, one after the other. */
  function Payload(hs: seq<TriggerRawHdr>): (s: seq<byte>)
    ensures |s| == TRIGGER_SIZE * |hs|
  {
    if |hs| == 0 then [] else Payload(hs[..|hs| - 1]) + TriggerBytes(hs[|hs| - 1])
  }

  lemma {:induction false} PayloadAt(hs: seq<TriggerRawHdr>, i: nat)
    requires i < |hs|
    ensures Payload(hs)[TRIGGER_SIZE * i..TRIGGER_SIZE * (i + 1)] == TriggerBytes(hs[i])
  {
    var n := |hs| - 1;
    if i < n {
      PayloadAt(hs[..n], i);
      var p := Payload(hs[..n]);
      assert Payload(hs)[TRIGGER_SIZE * i..TRIGGER_SIZE * (i + 1)] == p[TRIGGER_SIZE * i..TRIGGER_SIZE * (i + 1)];
    }
  }

  // ----- header fields -----

  /** UDP_HDR::setPayloadSize, given the two values after the 16-bit truncation
      that passing them to `htons` implies. */
  function StoreLengths(s: seq<byte>, totLen: u16, udpLen: u16): (r: seq<byte>)
    requires |s| >= MRP
    ensures |r| == |s|
  {
    Put16(Put16(s, IP_TOT_LEN, totLen), UDP_LEN, udpLen)
  }

  /** The four stores of MRP_FRAME_HDR::SetNumberOfTriggers, in order. They do not
      disturb each other. */
  function StoreFields(s: seq<byte>, count: u16, length: u16, totLen: u16, udpLen: u16): (r: seq<byte>)
    requires |s| >= FRAME_HDR
    ensures |r| == |s|
    ensures Net16(r, MRP_COUNT) == count && Net16(r, MRP_LENGTH) == length
    ensures Net16(r, IP_TOT_LEN) == totLen && Net16(r, UDP_LEN) == udpLen
    ensures forall k :: 0 <= k < |s| && k !in {16, 17, 38, 39, 42, 43, 44, 45} ==> r[k] == s[k]
  {
    StoreLengths(Put16(Put16(s, MRP_COUNT, count), MRP_LENGTH, length), totLen, udpLen)
  }

  lemma TruncAbsorbs(k: nat, x: nat)
    ensures Trunc16(k + Trunc16(x) as int) == Trunc16(k + x)
  {
    ModPlusMultiple(k + x % TWO_16, x / TWO_16);
  }

  lemma TruncScaled(k: nat, n: nat)
    ensures Trunc16(k + TRIGGER_SIZE * (Trunc16(n) as int)) == Trunc16(k + TRIGGER_SIZE * n)
  {
    ModPlusMultiple(k + 12 * (n % TWO_16), 12 * (n / TWO_16));
  }

  lemma ModPlusMultiple(x: nat, q: nat)
    ensures (x + q * TWO_16) % TWO_16 == x % TWO_16
  {
  }

  /** MRP_FRAME_HDR::SetNumberOfTriggers. The lengths are truncated to 16 bits step
      by step, which comes to truncating once. */
  function SetNumberOfTriggers(s: seq<byte>, triggerNum: u16): (r: seq<byte>)
    requires |s| >= FRAME_HDR
    ensures |r| == |s|
    ensures Net16(r, MRP_COUNT) == triggerNum
    ensures Net16(r, MRP_LENGTH) == Trunc16(12 + TRIGGER_SIZE * (triggerNum as int))
    ensures Net16(r, UDP_LEN) == Trunc16(20 + TRIGGER_SIZE * (triggerNum as int))
    ensures Net16(r, IP_TOT_LEN) == Trunc16(40 + TRIGGER_SIZE * (triggerNum as int))
    ensures forall k :: 0 <= k < |s| && k !in {16, 17, 38, 39, 42, 43, 44, 45} ==> r[k] == s[k]
  {
    hide Trunc16, Put16, Net16, StoreFields;
    LengthsTruncated(triggerNum);
    var length := Trunc16(MRP_HDR_SIZE + TRIGGER_SIZE * (triggerNum as int));
    StoreFields(s, triggerNum, length,
                Trunc16(IPHDR_SIZE + UDPHDR_SIZE + length as int), Trunc16(UDPHDR_SIZE + length as int))
  }

  lemma LengthsTruncated(triggerNum: u16)
    ensures var length := Trunc16(MRP_HDR_SIZE + TRIGGER_SIZE * (triggerNum as int));
            && length == Trunc16(12 + TRIGGER_SIZE * (triggerNum as int))
            && Trunc16(IPHDR_SIZE + UDPHDR_SIZE + length as int) == Trunc16(40 + TRIGGER_SIZE * (triggerNum as int))
            && Trunc16(UDPHDR_SIZE + length as int) == Trunc16(20 + TRIGGER_SIZE * (triggerNum as int))
  {
    hide Trunc16;
    var payloadLength := MRP_HDR_SIZE + TRIGGER_SIZE * (triggerNum as int);
    TruncAbsorbs(IPHDR_SIZE + UDPHDR_SIZE, payloadLength);
    TruncAbsorbs(UDPHDR_SIZE, payloadLength);
  }

  /** `getSize`, on the receiver's or the sender's side alike. */
  function GetSize(s: seq<byte>): u16
    requires |s| >= FRAME_HDR
  {
    Net16(s, MRP_LENGTH)
  }

  // ----- UDP checksum -----

  /** The chain of partial sums shared by GenerateUDPChecksum and CheckUDP: first
      protocol number, length and addresses, then the payload, then the UDP header. */
  function UdpChain(hdr: seq<byte>, payload: seq<byte>): u16
    requires |hdr| >= MRP
  {
    GenerateChecksumUnwrapped(hdr[UDP..MRP],
      GenerateChecksumUnwrapped(payload,
        GenerateChecksumUnwrapped(hdr[IP_SADDR..UDP], IPPROTO_UDP + Net16(hdr, UDP_LEN))))
  }

  predicate CheckUdp(hdr: seq<byte>, payload: seq<byte>)
    requires |hdr| >= MRP
  {
    UdpChain(hdr, payload) == ONES
  }

  /** GenerateUDPChecksum on a header whose check field is already zero. */
  function GenerateUdpChecksum(hdr: seq<byte>, payloadLength: nat): u16
    requires |hdr| >= MRP + payloadLength
  {
    Wrapsum(UdpChain(hdr, hdr[MRP..MRP + payloadLength]))
  }

  /** The pseudo header of RFC 768: addresses, a zero byte, the protocol, the UDP length. */
  function PseudoHeader(hdr: seq<byte>): seq<byte>
    requires |hdr| >= MRP
  {
    hdr[IP_SADDR..UDP] + [0, IPPROTO_UDP, hdr[UDP_LEN], hdr[UDP_LEN + 1]]
  }

  function UdpTotal(hdr: seq<byte>, payload: seq<byte>): nat
    requires |hdr| >= MRP
  {
    NetSum(hdr[UDP..MRP]) + NetSum(payload) + NetSum(hdr[IP_SADDR..UDP]) + IPPROTO_UDP + Net16(hdr, UDP_LEN)
  }

  lemma ChainIsFoldedTotal(hdr: seq<byte>, payload: seq<byte>)
    requires |hdr| >= MRP
    ensures UdpChain(hdr, payload) == Fold(UdpTotal(hdr, payload))
  {
    hide Fold, NetSum;
    var a := IPPROTO_UDP + Net16(hdr, UDP_LEN) + NetSum(hdr[IP_SADDR..UDP]);
    FoldAbsorbs(a, NetSum(payload));
    FoldAbsorbs(a + NetSum(payload), NetSum(hdr[UDP..MRP]));
  }

  lemma NetSumOfFour(a: byte, b: byte, c: byte, d: byte)
    ensures NetSum([a, b, c, d]) == Word(a, b) + Word(c, d)
  {
    assert [a, b, c, d][2..] == [c, d];
    assert NetSum([c, d]) == Word(c, d);
  }

  lemma CoveredTotal(hdr: seq<byte>, payload: seq<byte>)
    requires |hdr| >= MRP
    ensures NetSum(PseudoHeader(hdr) + hdr[UDP..MRP] + payload) == UdpTotal(hdr, payload)
  {
    hide NetSum;
    var tail := [0, IPPROTO_UDP, hdr[UDP_LEN], hdr[UDP_LEN + 1]];
    NetSumOfFour(0, IPPROTO_UDP, hdr[UDP_LEN], hdr[UDP_LEN + 1]);
    NetSumConcat(hdr[IP_SADDR..UDP], tail, 4);
    NetSumConcat(PseudoHeader(hdr), hdr[UDP..MRP], 6);
    NetSumConcat(PseudoHeader(hdr) + hdr[UDP..MRP], payload, 10);
  }

  /** Adding up the segments out of order gives the checksum that RFC 768 defines
      over pseudo header, UDP header and payload, for every payload length. */
  lemma ChainIsRfc768Sum(hdr: seq<byte>, payload: seq<byte>)
    requires |hdr| >= MRP
    ensures UdpChain(hdr, payload) == Fold(NetSum(PseudoHeader(hdr) + hdr[UDP..MRP] + payload))
  {
    hide Fold, NetSum, UdpChain, UdpTotal, PseudoHeader;
    ChainIsFoldedTotal(hdr, payload);
    CoveredTotal(hdr, payload);
  }

  lemma PutInSlice(s: seq<byte>, lo: nat, hi: nat, at: nat, v: u16)
    requires lo <= at && at + 2 <= hi <= |s|
    ensures Put16(s, at, v)[lo..hi] == Put16(s[lo..hi], at - lo, v)
  {
  }

  lemma SameSlice(a: seq<byte>, b: seq<byte>, lo: nat, hi: nat)
    requires lo <= hi <= |a| && hi <= |b|
    requires forall k :: lo <= k < hi ==> a[k] == b[k]
    ensures a[lo..hi] == b[lo..hi]
  {
  }

  /** How often a word of the header counts: the UDP length is in the pseudo header, too. */
  function Weight(at: nat): nat {
    if at == UDP_LEN then 2 else 1
  }

  lemma PutKeepsSlice(s: seq<byte>, lo: nat, hi: nat, at: nat, v: u16)
    requires lo <= hi <= |s| && at + 2 <= |s| && (at + 2 <= lo || hi <= at)
    ensures Put16(s, at, v)[lo..hi] == s[lo..hi]
  {
  }

  lemma NetInSlice(s: seq<byte>, lo: nat, hi: nat, at: nat)
    requires lo <= at && at + 2 <= hi <= |s|
    ensures Net16(s[lo..hi], at - lo) == Net16(s, at)
  {
  }

  lemma SumOfChangedSlice(s: seq<byte>, l: nat, hi: nat, i: nat, v: u16)
    requires l <= i && 2 * i + 2 <= hi <= |s|
    ensures NetSum(Put16(s, 2 * i, v)[2 * l..hi]) == NetSum(s[2 * l..hi]) - Net16(s, 2 * i) + v
  {
    hide NetSum, Put16, Net16;
    PutInSlice(s, 2 * l, hi, 2 * i, v);
    NetInSlice(s, 2 * l, hi, 2 * i);
    NetSumPut(s[2 * l..hi], i - l, v);
  }

  lemma LengthField(hdr: seq<byte>, at: nat, v: u16)
    requires |hdr| >= MRP && at + 2 <= |hdr| && at % 2 == 0
    ensures Net16(Put16(hdr, at, v), UDP_LEN) == if at == UDP_LEN then v else Net16(hdr, UDP_LEN)
  {
    hide Word;
  }

  /** Writing one word of addresses or UDP header. */
  lemma HeaderWordTotal(hdr: seq<byte>, payload: seq<byte>, i: nat, v: u16)
    requires |hdr| >= MRP && 13 <= i < 21
    ensures UdpTotal(Put16(hdr, 2 * i, v), payload) ==
            UdpTotal(hdr, payload) - Weight(2 * i) * Net16(hdr, 2 * i) + Weight(2 * i) * v
  {
    hide NetSum, Put16, Net16;
    LengthField(hdr, 2 * i, v);
    if i < 17 {
      SumOfChangedSlice(hdr, 13, UDP, i, v);
      PutKeepsSlice(hdr, UDP, MRP, 2 * i, v);
    } else {
      SumOfChangedSlice(hdr, 17, MRP, i, v);
      PutKeepsSlice(hdr, IP_SADDR, UDP, 2 * i, v);
    }
  }

  lemma HeaderWordBound(hdr: seq<byte>, payload: seq<byte>, i: nat)
    requires |hdr| >= MRP && 13 <= i < 21
    ensures Weight(2 * i) * Net16(hdr, 2 * i) <= UdpTotal(hdr, payload)
  {
    hide UdpTotal, Net16, Put16;
    HeaderWordTotal(hdr, payload, i, 0);
  }

  /** Writing a zeroed check field adds the written value to the total. */
  lemma UdpTotalPut(s: seq<byte>, payloadLength: nat, v: u16)
    requires |s| >= MRP + payloadLength && Net16(s, UDP_CHECK) == 0
    ensures var t := Put16(s, UDP_CHECK, v);
            UdpTotal(t, t[MRP..MRP + payloadLength]) == UdpTotal(s, s[MRP..MRP + payloadLength]) + v
  {
    hide UdpTotal, Put16, Net16;
    PutKeepsSlice(s, MRP, MRP + payloadLength, UDP_CHECK, v);
    HeaderWordTotal(s, s[MRP..MRP + payloadLength], 20, v);
  }

  /** Storing the generated checksum makes CheckUDP accept, whatever the contents
      and the payload length. */
  lemma GeneratedUdpChecksumAccepted(s: seq<byte>, payloadLength: nat)
    requires |s| >= MRP + payloadLength
    requires Net16(s, UDP_CHECK) == 0
    ensures var t := Put16(s, UDP_CHECK, GenerateUdpChecksum(s, payloadLength));
            CheckUdp(t, t[MRP..MRP + payloadLength])
  {
    hide Fold, Balanced, UdpTotal, UdpChain, Put16, Net16;
    var p := s[MRP..MRP + payloadLength];
    var v := GenerateUdpChecksum(s, payloadLength);
    var t := Put16(s, UDP_CHECK, v);
    ChainIsFoldedTotal(s, p);
    ChainIsFoldedTotal(t, t[MRP..MRP + payloadLength]);
    UdpTotalPut(s, payloadLength, v);
    ComplementBalances(UdpTotal(s, p));
    BalancedFolds(UdpTotal(s, p) + v);
  }

  /** What CheckUDP accepts: exactly the messages whose covered words balance. */
  lemma CheckUdpExactly(hdr: seq<byte>, payload: seq<byte>)
    requires |hdr| >= MRP
    ensures CheckUdp(hdr, payload) <==> Balanced(NetSum(PseudoHeader(hdr) + hdr[UDP..MRP] + payload))
    ensures CheckUdp(hdr, payload) <==> Balanced(UdpTotal(hdr, payload))
  {
    hide Fold, Balanced, UdpTotal, UdpChain, PseudoHeader, NetSum;
    ChainIsFoldedTotal(hdr, payload);
    CoveredTotal(hdr, payload);
    BalancedFolds(UdpTotal(hdr, payload));
  }

  lemma WordChanged(total: nat, w: u16, v: u16, weight: nat)
    requires Balanced(total) && (weight == 1 || weight == 2) && weight * w <= total
    ensures Balanced(total - weight * w + weight * v) <==>
              || v == w
              || (w == 0 && v == ONES)
              || (w == ONES && v == 0 && total > weight * ONES)
  {
    var d := weight * (v - w);
    assert (total + d) % ONES == 0 <==> d % ONES == 0;
    assert d % ONES == 0 <==> d == 0 || d == weight * ONES || d == -(weight as int) * ONES;
  }

  /** Error detection of CheckUDP, exactly: of all changes of one word of an accepted
      message, in the addresses, the UDP header or the payload, only an exchange of the
      two forms of zero is accepted. */
  lemma UdpHeaderWordError(hdr: seq<byte>, payload: seq<byte>, i: nat, v: u16)
    requires |hdr| >= MRP && 13 <= i < 21 && CheckUdp(hdr, payload)
    ensures CheckUdp(Put16(hdr, 2 * i, v), payload) <==>
              || v == Net16(hdr, 2 * i)
              || (Net16(hdr, 2 * i) == 0 && v == ONES)
              || (Net16(hdr, 2 * i) == ONES && v == 0 && UdpTotal(hdr, payload) > Weight(2 * i) * ONES)
  {
    hide CheckUdp, Balanced, UdpTotal, Put16, Net16, NetSum;
    CheckUdpExactly(hdr, payload);
    CheckUdpExactly(Put16(hdr, 2 * i, v), payload);
    HeaderWordTotal(hdr, payload, i, v);
    HeaderWordBound(hdr, payload, i);
    WordChanged(UdpTotal(hdr, payload), Net16(hdr, 2 * i), v, Weight(2 * i));
  }

  lemma UdpPayloadWordError(hdr: seq<byte>, payload: seq<byte>, i: nat, v: u16)
    requires |hdr| >= MRP && 2 * i + 2 <= |payload| && CheckUdp(hdr, payload)
    ensures CheckUdp(hdr, Put16(payload, 2 * i, v)) <==>
              || v == Net16(payload, 2 * i)
              || (Net16(payload, 2 * i) == 0 && v == ONES)
              || (Net16(payload, 2 * i) == ONES && v == 0 && UdpTotal(hdr, payload) > ONES)
  {
    hide CheckUdp, Balanced, Put16, Net16, NetSum;
    CheckUdpExactly(hdr, payload);
    CheckUdpExactly(hdr, Put16(payload, 2 * i, v));
    NetSumPut(payload, i, v);
    NetSumPut(payload, i, 0);
    WordChanged(UdpTotal(hdr, payload), Net16(payload, 2 * i), v, 1);
  }

  /** What RFC 768 puts into the check field for these words: a computed zero is
      transmitted as all ones. */
  function Rfc768Field(data: seq<byte>): u16 {
    if Fold(NetSum(data)) == ONES then ONES else ONES - Fold(NetSum(data))
  }

  /** Where GenerateUDPChecksum departs from RFC 768: it yields zero, the value that
      means "no checksum", exactly when the covered words balance; otherwise the two
      agree. */
  lemma ZeroChecksumExactly(s: seq<byte>, payloadLength: nat)
    requires |s| >= MRP + payloadLength
    ensures var p := s[MRP..MRP + payloadLength];
            var covered := PseudoHeader(s) + s[UDP..MRP] + p;
            && (GenerateUdpChecksum(s, payloadLength) == 0 <==> Balanced(NetSum(covered)))
            && (GenerateUdpChecksum(s, payloadLength) == Rfc768Field(covered) <==> !Balanced(NetSum(covered)))
  {
    hide Fold, Balanced, UdpChain, PseudoHeader, NetSum;
    var p := s[MRP..MRP + payloadLength];
    ChainIsRfc768Sum(s, p);
    BalancedFolds(NetSum(PseudoHeader(s) + s[UDP..MRP] + p));
  }

  /** The verdict of `CheckData` on the IP header of a frame. */
  predicate IpHeaderOk(f: seq<byte>)
    requires |f| >= UDP
  {
    Accepted(f[IP..UDP], IPHDR_SIZE)
  }

  /** What a receiver checks before it trusts a frame: the IP header with
      `CheckData`, the UDP header and the advertised payload with `CheckUDP`. */
  predicate ChecksumsOk(f: seq<byte>) {
    && |f| >= FRAME_HDR
    && IpHeaderOk(f)
    && |f| >= MRP + GetSize(f)
    && CheckUdp(f, f[MRP..MRP + GetSize(f)])
  }

  // ----- a whole frame -----

  /** UDP_HDR::isFragment: an offset, or more fragments to come, in the low 14 bits. */
  predicate IsFragment(s: seq<byte>)
    requires |s| >= UDP
  {
    Net16(s, IP_FRAG) % 0x4000 != 0
  }

  /** In bits: the offset is the low 13, and the next one says that more follow. */
  lemma FragmentBits(s: seq<byte>)
    requires |s| >= UDP
    ensures IsFragment(s) <==> Net16(s, 20) % 0x2000 != 0 || Net16(s, 20) / 0x2000 % 2 == 1
  {
    hide Net16;
    OneMoreBit(Net16(s, 20));
  }

  lemma OneMoreBit(x: nat)
    ensures x % 0x4000 == 0x2000 * (x / 0x2000 % 2) + x % 0x2000
  {
    var q, r := x / 0x2000, x % 0x2000;
    assert x == 0x2000 * q + r && q == 2 * (q / 2) + q % 2;
    QuotientUnique(x, 0x4000, q / 2, 0x2000 * (q % 2) + r);
  }

  /** A header template as Initialize leaves it. */
  predicate ValidTemplate(t: seq<byte>) {
    && |t| == FRAME_HDR
    && Net16(t, ETHER_TYPE) == ETHERTYPE_IP
    && t[IP] == VERSION_IHL
    && t[IP_PROTOCOL] == IPPROTO_UDP
    && !IsFragment(t)
  }

  /** Template and payload with the counts filled in, before any checksum. The
      batch size itself is truncated to 16 bits when it is passed on. */
  function Sized(t: seq<byte>, hs: seq<TriggerRawHdr>): (s: seq<byte>)
    requires |t| == FRAME_HDR
    ensures |s| == FRAME_HDR + TRIGGER_SIZE * |hs|
    ensures Net16(s, MRP_COUNT) == Trunc16(|hs|)
    ensures Net16(s, MRP_LENGTH) == Trunc16(12 + TRIGGER_SIZE * |hs|)
    ensures Net16(s, UDP_LEN) == Trunc16(20 + TRIGGER_SIZE * |hs|)
    ensures Net16(s, IP_TOT_LEN) == Trunc16(40 + TRIGGER_SIZE * |hs|)
    ensures forall k :: 0 <= k < |s| && k !in {16, 17, 38, 39, 42, 43, 44, 45} ==> s[k] == (t + Payload(hs))[k]
  {
    hide Put16, Trunc16;
    TruncScaled(12, |hs|);
    TruncScaled(20, |hs|);
    TruncScaled(40, |hs|);
    SetNumberOfTriggers(t + Payload(hs), Trunc16(|hs|))
  }

  function IpSummed(s: seq<byte>): (r: seq<byte>)
    requires |s| >= FRAME_HDR
    ensures |r| == |s|
    ensures forall k :: 0 <= k < |s| && k != IP_CHECK && k != IP_CHECK + 1 ==> r[k] == s[k]
  {
    var z := Put16(s, IP_CHECK, 0);
    Put16(z, IP_CHECK, GenerateChecksum(z[IP..UDP]))
  }

  function UdpSummed(s: seq<byte>, payloadLength: nat): (r: seq<byte>)
    requires |s| >= FRAME_HDR && |s| >= MRP + payloadLength
    ensures |r| == |s|
    ensures forall k :: 0 <= k < |s| && k != UDP_CHECK && k != UDP_CHECK + 1 ==> r[k] == s[k]
  {
    var z := Put16(s, UDP_CHECK, 0);
    Put16(z, UDP_CHECK, GenerateUdpChecksum(z, payloadLength))
  }

  /** The frame that Async_SendMRP queues for the endpoint with template `t`. */
  function MrpFrame(t: seq<byte>, hs: seq<TriggerRawHdr>): (f: seq<byte>)
    requires |t| == FRAME_HDR
    ensures |f| == FRAME_HDR + TRIGGER_SIZE * |hs|
  {
    var s := IpSummed(Sized(t, hs));
    UdpSummed(s, GetSize(s))
  }

  /** Every length field of a frame, for every batch size, with the 16-bit
      truncation of the source; all other header bytes come from the template,
      except the two checksums, and the payload is the trigger elements. */
  lemma FrameFields(t: seq<byte>, hs: seq<TriggerRawHdr>)
    requires |t| == FRAME_HDR
    ensures var f, n := MrpFrame(t, hs), |hs|;
            && Net16(f, 42) == Trunc16(n) == n % 0x1_0000
            && Net16(f, 44) == Trunc16(12 + 12 * n) == (12 + 12 * n) % 0x1_0000
            && Net16(f, 38) == Trunc16(20 + 12 * n) == (20 + 12 * n) % 0x1_0000
            && Net16(f, 16) == Trunc16(40 + 12 * n) == (40 + 12 * n) % 0x1_0000
    ensures forall k :: 0 <= k < FRAME_HDR && k !in {16, 17, 24, 25, 38, 39, 40, 41, 42, 43, 44, 45}
              ==> MrpFrame(t, hs)[k] == t[k]
    ensures MrpFrame(t, hs)[FRAME_HDR..] == Payload(hs)
  {
    FrameFromSized(t, hs);
    hide Sized, MrpFrame, Payload, Trunc16;
    TruncIs(|hs|);
    TruncIs(12 + 12 * |hs|);
    TruncIs(20 + 12 * |hs|);
    TruncIs(40 + 12 * |hs|);
    FieldsAgree(MrpFrame(t, hs), Sized(t, hs), t, Payload(hs));
  }

  lemma TruncIs(x: nat)
    ensures Trunc16(x) == x % 0x1_0000
  {
  }

  lemma FieldsAgree(f: seq<byte>, s: seq<byte>, t: seq<byte>, p: seq<byte>)
    requires |t| == FRAME_HDR && |f| == |s| == |t + p|
    requires forall k :: 0 <= k < |s| && k !in {24, 25, 40, 41} ==> f[k] == s[k]
    requires forall k :: 0 <= k < |s| && k !in {16, 17, 38, 39, 42, 43, 44, 45} ==> s[k] == (t + p)[k]
    ensures Net16(f, MRP_COUNT) == Net16(s, MRP_COUNT) && Net16(f, MRP_LENGTH) == Net16(s, MRP_LENGTH)
    ensures Net16(f, UDP_LEN) == Net16(s, UDP_LEN) && Net16(f, IP_TOT_LEN) == Net16(s, IP_TOT_LEN)
    ensures forall k :: 0 <= k < FRAME_HDR && k !in {16, 17, 24, 25, 38, 39, 40, 41, 42, 43, 44, 45} ==> f[k] == t[k]
    ensures f[FRAME_HDR..] == p
  {
    forall k | 0 <= k < |p| ensures f[FRAME_HDR..][k] == p[k] {
      assert f[FRAME_HDR + k] == s[FRAME_HDR + k];
    }
  }

  /** The checksums change nothing but their own fields. */
  lemma FrameFromSized(t: seq<byte>, hs: seq<TriggerRawHdr>)
    requires |t| == FRAME_HDR
    ensures forall k :: 0 <= k < |Sized(t, hs)| && k !in {24, 25, 40, 41} ==> MrpFrame(t, hs)[k] == Sized(t, hs)[k]
  {
    hide Sized, Put16, GenerateChecksum, GenerateUdpChecksum;
  }

  /** The length fields describe the frame they are in exactly when the batch has
      at most 5457 triggers. */
  lemma LengthCoherence(t: seq<byte>, hs: seq<TriggerRawHdr>)
    requires |t| == FRAME_HDR
    ensures var f, n := MrpFrame(t, hs), |hs|;
            (&& Net16(f, 42) == n
             && Net16(f, 44) == 12 + 12 * n
             && Net16(f, 38) == 20 + 12 * n
             && Net16(f, 16) == 40 + 12 * n == |f| - 14)
            <==> n <= 5457
  {
    hide MrpFrame, Trunc16, Net16;
    FrameFields(t, hs);
    TruncExact(|hs|);
    TruncExact(12 + 12 * |hs|);
    TruncExact(20 + 12 * |hs|);
    TruncExact(40 + 12 * |hs|);
  }

  lemma TruncExact(x: nat)
    ensures Trunc16(x) == x <==> x < TWO_16
  {
  }

  /** Every frame, of any batch size, carries an IP header that `CheckData` accepts
      and a UDP checksum that `CheckUDP` accepts for the advertised payload. */
  lemma FrameChecksumsAccepted(t: seq<byte>, hs: seq<TriggerRawHdr>)
    requires |t| == FRAME_HDR
    ensures ChecksumsOk(MrpFrame(t, hs))
  {
    hide Put16, Trunc16, Sized, CheckUdp, Accepted, IpSummed, UdpSummed;
    var r := IpSummed(Sized(t, hs));
    IpHeaderAccepted(Sized(t, hs));
    UdpPartAccepted(r, GetSize(r));
    UdpSummedKeeps(r, GetSize(r));
  }

  lemma UdpSummedKeeps(s: seq<byte>, payloadLength: nat)
    requires |s| >= FRAME_HDR && |s| >= MRP + payloadLength
    ensures var f := UdpSummed(s, payloadLength);
            f[IP..UDP] == s[IP..UDP] && GetSize(f) == GetSize(s)
  {
    hide Put16, GenerateUdpChecksum;
  }

  lemma IpHeaderAccepted(s: seq<byte>)
    requires |s| >= FRAME_HDR
    ensures IpHeaderOk(IpSummed(s))
  {
    hide GenerateChecksum, WordsAccepted, Put16;
    var z := Put16(s, IP_CHECK, 0);
    var h := z[IP..UDP];
    GeneratedChecksumAccepted(h, 10, 5);
    PutInSlice(z, IP, UDP, IP_CHECK, GenerateChecksum(h));
    assert WordCount(IPHDR_SIZE) == 10;
  }

  lemma UdpPartAccepted(s: seq<byte>, payloadLength: nat)
    requires |s| >= FRAME_HDR && |s| >= MRP + payloadLength
    ensures CheckUdp(UdpSummed(s, payloadLength), UdpSummed(s, payloadLength)[MRP..MRP + payloadLength])
  {
    GeneratedUdpChecksumAccepted(Put16(s, UDP_CHECK, 0), payloadLength);
  }

  // ----- a checksum of zero -----

  /** The words that RFC 768 covers, with the check field taken as zero. */
  function Covered(f: seq<byte>): seq<byte>
    requires |f| >= FRAME_HDR && |f| >= MRP + GetSize(f)
  {
    var z := Put16(f, UDP_CHECK, 0);
    PseudoHeader(z) + z[UDP..MRP] + z[MRP..MRP + GetSize(f)]
  }

  lemma CheckFieldOfSummed(s: seq<byte>, payloadLength: nat)
    requires |s| >= FRAME_HDR && |s| >= MRP + payloadLength
    ensures var f := UdpSummed(s, payloadLength);
            Net16(f, UDP_CHECK) == GenerateUdpChecksum(Put16(f, UDP_CHECK, 0), payloadLength)
  {
    hide GenerateUdpChecksum, Put16, Net16;
    var z := Put16(s, UDP_CHECK, 0);
    PutTwice(s, UDP_CHECK, 0, 0);
    PutTwice(z, UDP_CHECK, GenerateUdpChecksum(z, payloadLength), 0);
  }

  lemma PutTwice(s: seq<byte>, at: nat, v: u16, w: u16)
    requires at + 2 <= |s|
    ensures Put16(Put16(s, at, v), at, w) == Put16(s, at, w)
  {
  }

  lemma AdvertisedFits(t: seq<byte>, hs: seq<TriggerRawHdr>)
    requires |t| == FRAME_HDR
    ensures var s := IpSummed(Sized(t, hs)); |s| >= MRP + GetSize(s)
  {
    hide Sized, IpSummed, Trunc16;
  }

  /** For every template and batch: the frame carries the RFC 768 check field unless
      its covered words balance; then, and only then, it carries zero. */
  lemma FrameCheckField(t: seq<byte>, hs: seq<TriggerRawHdr>)
    requires |t| == FRAME_HDR
    ensures var f := MrpFrame(t, hs);
            && |f| >= MRP + GetSize(f)
            && (Net16(f, UDP_CHECK) == 0 <==> Balanced(NetSum(Covered(f))))
            && (Net16(f, UDP_CHECK) == Rfc768Field(Covered(f)) <==> !Balanced(NetSum(Covered(f))))
  {
    hide Put16, Sized, IpSummed, UdpSummed, Balanced, NetSum, Fold, Net16, PseudoHeader, GenerateUdpChecksum, Rfc768Field;
    var s := IpSummed(Sized(t, hs));
    AdvertisedFits(t, hs);
    UdpSummedKeeps(s, GetSize(s));
    CheckFieldOfSummed(s, GetSize(s));
    ZeroChecksumExactly(Put16(MrpFrame(t, hs), UDP_CHECK, 0), GetSize(s));
  }

  /** The covered words of a frame of a coherent batch, summed up from what the
      caller knows: template and trigger elements. */
  function RequestSum(t: seq<byte>, hs: seq<TriggerRawHdr>): nat
    requires |t| == FRAME_HDR
  {
    NetSum(t[UDP..UDP_LEN]) + NetSum(t[MRP_IP..]) + NetSum(t[IP_SADDR..UDP]) + NetSum(Payload(hs))
    + IPPROTO_UDP + 52 + 37 * |hs|
  }

  lemma NetSumOfHeader(z: seq<byte>, u: u16, v: u16, at: nat)
    requires at + 8 == |z| && Net16(z, at + 4) == u && Net16(z, at + 6) == v
    ensures NetSum(z[at..]) == NetSum(z[at..at + 4]) + u + v
  {
    hide NetSum, Word;
    NetSumOfFour(z[at + 4], z[at + 5], z[at + 6], z[at + 7]);
    NetSumConcat(z[at..at + 4], z[at + 4..], 2);
    assert z[at..] == z[at..at + 4] + z[at + 4..];
    assert z[at + 4..] == [z[at + 4], z[at + 5], z[at + 6], z[at + 7]];
  }

  lemma NetSumOfMrp(p: seq<byte>, count: u16, length: u16)
    requires |p| >= 12 && Net16(p, 0) == count && Net16(p, 2) == length
    ensures NetSum(p) == count + length + NetSum(p[4..12]) + NetSum(p[12..])
  {
    hide NetSum, Word;
    NetSumOfFour(p[0], p[1], p[2], p[3]);
    assert p[..4] == [p[0], p[1], p[2], p[3]];
    assert p == p[..4] + p[4..] && p[4..] == p[4..12] + p[12..];
    NetSumConcat(p[..4], p[4..], 2);
    NetSumConcat(p[4..12], p[12..], 4);
  }

  lemma CoveredSum(t: seq<byte>, hs: seq<TriggerRawHdr>)
    requires |t| == FRAME_HDR && |hs| <= MAX_COHERENT
    ensures |MrpFrame(t, hs)| == MRP + GetSize(MrpFrame(t, hs))
    ensures NetSum(Covered(MrpFrame(t, hs))) == RequestSum(t, hs)
  {
    hide MrpFrame, NetSum, Payload, Net16, Trunc16, PseudoHeader;
    var f, n := MrpFrame(t, hs), |hs|;
    FrameFields(t, hs);
    LengthCoherence(t, hs);
    var z := Put16(f, UDP_CHECK, 0);
    assert z[MRP..MRP + GetSize(f)] == z[MRP..];
    CoveredTotal(z, z[MRP..]);
    ZeroedFields(f, t, Payload(hs));
    NetSumOfHeader(z[..MRP], 20 + 12 * n, 0, UDP);
    NetSumOfMrp(z[MRP..], n, 12 + 12 * n);
    assert z[..MRP][UDP..] == z[UDP..MRP] && z[..MRP][UDP..UDP_LEN] == z[UDP..UDP_LEN];
    assert z[MRP..][12..] == z[FRAME_HDR..] && z[MRP..][4..12] == z[MRP_IP..FRAME_HDR];
  }

  lemma ZeroedFields(f: seq<byte>, t: seq<byte>, p: seq<byte>)
    requires |t| == FRAME_HDR <= |f| && f[FRAME_HDR..] == p
    requires forall k :: 0 <= k < FRAME_HDR && k !in {16, 17, 24, 25, 38, 39, 40, 41, 42, 43, 44, 45} ==> f[k] == t[k]
    ensures var z := Put16(f, UDP_CHECK, 0);
            && z[UDP..UDP_LEN] == t[UDP..UDP_LEN] && z[MRP_IP..FRAME_HDR] == t[MRP_IP..]
            && z[IP_SADDR..UDP] == t[IP_SADDR..UDP] && z[FRAME_HDR..] == p
            && Net16(z, UDP_LEN) == Net16(f, UDP_LEN) == Net16(z[..MRP], UDP + 4) && Net16(z[..MRP], UDP + 6) == 0
            && Net16(z[MRP..], 0) == Net16(f, MRP_COUNT) && Net16(z[MRP..], 2) == Net16(f, MRP_LENGTH)
  {
    hide Put16, Word;
    var z := Put16(f, UDP_CHECK, 0);
    SameSlice(z, t, UDP, UDP_LEN);
    SameSlice(z, t, MRP_IP, FRAME_HDR);
    SameSlice(z, t, IP_SADDR, UDP);
    SameSlice(z, f, FRAME_HDR, |f|);
    assert t[MRP_IP..] == t[MRP_IP..FRAME_HDR] && f[FRAME_HDR..] == f[FRAME_HDR..|f|] && z[FRAME_HDR..] == z[FRAME_HDR..|f|];
  }

  lemma NetSumOfTimestamp(ts: u16)
    ensures NetSum(Stored(Swapped(ts, 4), 4)) == ts
  {
    hide Stored, Swapped;
    Widths();
    SwappedIsNetworkOrder(ts, 4);
    var s := Stored(Swapped(ts, 4), 4);
    FourBytes(s[0], s[1], s[2], s[3]);
    assert s == [s[0], s[1], s[2], s[3]];
    NetSumOfFour(s[0], s[1], s[2], s[3]);
  }

  lemma FourBytes(a: byte, b: byte, c: byte, d: byte)
    ensures NetValue([a, b, c, d]) == TWO_16 * Word(a, b) + Word(c, d)
  {
    assert [a][..0] == [] && [a, b][..1] == [a];
    assert NetValue([a]) == a && NetValue([a, b]) == Word(a, b);
    assert [a, b, c][..2] == [a, b] && [a, b, c, d][..3] == [a, b, c];
    assert NetValue([a, b, c]) == 256 * Word(a, b) + c;
  }

  /** The trigger that makes up `ts` in the sum of its element. */
  function EventAt(ts: u16): Event {
    Event(ts, 0, 0, 0)
  }

  lemma NetSumOfTrigger(ts: u16)
    ensures NetSum(Payload([GenerateTriggerHdr(EventAt(ts), false)])) == ts + NetSum(Payload([GenerateTriggerHdr(EventAt(0), false)]))
  {
    hide NetSum, Stored, Swapped;
    var tail := [0, 0] + Stored(Swapped(0, 2), 2) + [0] + Stored(Swapped(0, 4) / 256, 3);
    forall v: u16 | v in {ts, 0}
      ensures NetSum(Payload([GenerateTriggerHdr(EventAt(v), false)])) == v + NetSum(tail)
    {
      var h := GenerateTriggerHdr(EventAt(v), false);
      assert [h][..0] == [];
      assert Payload([h]) == TriggerBytes(h) == Stored(Swapped(v, 4), 4) + tail;
      NetSumConcat(Stored(Swapped(v, 4), 4), tail, 2);
      NetSumOfTimestamp(v);
    }
  }

  /** The exact inputs whose frame carries zero. */
  lemma ZeroChecksumOfBatch(t: seq<byte>, hs: seq<TriggerRawHdr>)
    requires |t| == FRAME_HDR && |hs| <= MAX_COHERENT
    ensures Net16(MrpFrame(t, hs), UDP_CHECK) == 0 <==> Balanced(RequestSum(t, hs))
  {
    hide MrpFrame, RequestSum, NetSum, Covered, Net16, Rfc768Field, Balanced;
    CoveredSum(t, hs);
    FrameCheckField(t, hs);
  }

  /** Zero does occur: for every template there is an event whose request carries it. */
  lemma ZeroChecksumOccurs(t: seq<byte>) returns (ts: u16)
    requires |t| == FRAME_HDR
    ensures Net16(MrpFrame(t, [GenerateTriggerHdr(EventAt(ts), false)]), UDP_CHECK) == 0
  {
    hide MrpFrame, Payload, NetSum, Net16;
    var base := RequestSum(t, [GenerateTriggerHdr(EventAt(0), false)]);
    ts := ONES - base % ONES;
    NetSumOfTrigger(ts);
    ZeroChecksumOfBatch(t, [GenerateTriggerHdr(EventAt(ts), false)]);
    BalancedBy(base);
  }

  lemma BalancedBy(base: nat)
    ensures Balanced(base + (ONES - base % ONES))
  {
  }

  // ----- the receiver -----

  /** What a receiver takes out of an MRP frame. */
  datatype Mrp = Mrp(dstMac: seq<byte>, srcMac: seq<byte>, srcIp: seq<byte>, dstIp: seq<byte>,
                     srcPort: u16, dstPort: u16, requester: seq<byte>, requests: seq<Request>)

  /** Decode a frame, refusing it unless it is unfragmented IPv4 and UDP, all its lengths agree
      with each other and with the bytes received, and both checksums are right. */
  function Decode(f: seq<byte>): Option<Mrp> {
    if && |f| >= FRAME_HDR
       && Net16(f, ETHER_TYPE) == ETHERTYPE_IP && f[IP] == VERSION_IHL && f[IP_PROTOCOL] == IPPROTO_UDP && !IsFragment(f)
       && |f| == 14 + Net16(f, IP_TOT_LEN) as int
       && Net16(f, IP_TOT_LEN) == IPHDR_SIZE + Net16(f, UDP_LEN) as int
       && Net16(f, UDP_LEN) == UDPHDR_SIZE + GetSize(f) as int
       && GetSize(f) == MRP_HDR_SIZE + TRIGGER_SIZE * (Net16(f, MRP_COUNT) as int)
       && ChecksumsOk(f)
    then
      Some(Mrp(f[..6], f[6..12], f[IP_SADDR..IP_DADDR], f[IP_DADDR..UDP], Net16(f, UDP), Net16(f, UDP + 2),
               f[MRP_IP..MRP_IP + 4], Requests(f[FRAME_HDR..])))
    else
      None
  }

  /** The trigger elements of a payload. */
  function Requests(payload: seq<byte>): (rs: seq<Request>)
    ensures |rs| == |payload| / TRIGGER_SIZE
  {
    seq(|payload| / TRIGGER_SIZE, i requires 0 <= i < |payload| / TRIGGER_SIZE =>
      DecodeTrigger(payload[TRIGGER_SIZE * i..TRIGGER_SIZE * (i + 1)]))
  }

  /** The requests that the headers `hs` stand for. */
  function Decoded(hs: seq<TriggerRawHdr>): (rs: seq<Request>)
    ensures |rs| == |hs|
  {
    seq(|hs|, i requires 0 <= i < |hs| => DecodeTrigger(TriggerBytes(hs[i])))
  }

  lemma RequestsOfPayload(hs: seq<TriggerRawHdr>)
    ensures Requests(Payload(hs)) == Decoded(hs)
  {
    forall i | 0 <= i < |hs| ensures Requests(Payload(hs))[i] == Decoded(hs)[i] {
      PayloadAt(hs, i);
    }
  }

  /** Wire round trip: a receiver accepts the frame exactly when the batch has at
      most 5457 triggers, and then recovers the template's addresses and ports and
      the trigger elements in the order in which they were packed. */
  lemma FrameRoundTrip(t: seq<byte>, hs: seq<TriggerRawHdr>)
    requires ValidTemplate(t)
    ensures Decode(MrpFrame(t, hs)) ==
            if |hs| <= MAX_COHERENT then
              Some(Mrp(t[..6], t[6..12], t[IP_SADDR..IP_DADDR], t[IP_DADDR..UDP], Net16(t, UDP), Net16(t, UDP + 2),
                       t[MRP_IP..MRP_IP + 4], Decoded(hs)))
            else
              None
  {
    hide Put16, MrpFrame, Trunc16, ChecksumsOk;
    var f := MrpFrame(t, hs);
    FrameFields(t, hs);
    LengthCoherence(t, hs);
    if |hs| <= MAX_COHERENT {
      FrameChecksumsAccepted(t, hs);
      RequestsOfPayload(hs);
      HeaderCopied(f, t);
    }
  }

  lemma HeaderCopied(f: seq<byte>, t: seq<byte>)
    requires |t| == FRAME_HDR <= |f|
    requires forall k :: 0 <= k < FRAME_HDR && k !in {16, 17, 24, 25, 38, 39, 40, 41, 42, 43, 44, 45} ==> f[k] == t[k]
    ensures f[..6] == t[..6] && f[6..12] == t[6..12] && f[IP_SADDR..IP_DADDR] == t[IP_SADDR..IP_DADDR]
    ensures f[IP_DADDR..UDP] == t[IP_DADDR..UDP] && f[MRP_IP..MRP_IP + 4] == t[MRP_IP..MRP_IP + 4]
    ensures Net16(f, UDP) == Net16(t, UDP) && Net16(f, UDP + 2) == Net16(t, UDP + 2)
    ensures Net16(f, ETHER_TYPE) == Net16(t, ETHER_TYPE) && f[IP] == t[IP] && f[IP_PROTOCOL] == t[IP_PROTOCOL]
    ensures Net16(f, IP_FRAG) == Net16(t, IP_FRAG)
  {
  }
}
