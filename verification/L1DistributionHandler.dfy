/** Async_SendMRP on real buffers (l1/L1DistributionHandler.cpp, l1/MRP.h,
    structs/Network.h): the batch is emptied from the back into a working buffer,
    and every endpoint gets a fresh frame with its template's header. */
module L1DistributionHandler {
  import opened Bytes
  import opened Checksum
  import opened Wire
  import EthernetUtils

  datatype DataContainer = DataContainer(data: array<byte>, length: nat, ownerMayFreeData: bool)

  // ----- header fields in place -----

  /** UDP_HDR::setPayloadSize. */
  method SetPayloadSize(frame: array<byte>, dataLength: u32)
    requires frame.Length >= FRAME_HDR
    modifies frame
    ensures frame[..] == StoreLengths(old(frame[..]), Trunc16(28 + dataLength as int), Trunc16(8 + dataLength as int))
  {
    EthernetUtils.StoreHtons(frame, IP_TOT_LEN, Trunc16(IPHDR_SIZE + UDPHDR_SIZE + dataLength as int));
    EthernetUtils.StoreHtons(frame, UDP_LEN, Trunc16(UDPHDR_SIZE + dataLength as int));
  }

  /** MRP_FRAME_HDR::SetNumberOfTriggers. */
  method WriteNumberOfTriggers(frame: array<byte>, triggerNum: u16)
    requires frame.Length >= FRAME_HDR
    modifies frame
    ensures frame[..] == SetNumberOfTriggers(old(frame[..]), triggerNum)
  {
    hide Put16, Trunc16;
    EthernetUtils.StoreHtons(frame, MRP_COUNT, triggerNum);
    var length := Trunc16(MRP_HDR_SIZE + TRIGGER_SIZE * (triggerNum as int));
    EthernetUtils.StoreHtons(frame, MRP_LENGTH, length);
    SetPayloadSize(frame, length);
  }

  /** The checksum assignments of lines 251 to 254. */
  method WriteChecksums(frame: array<byte>)
    requires frame.Length >= FRAME_HDR && frame.Length >= MRP + GetSize(frame[..])
    modifies frame
    ensures frame[..] == UdpSummed(IpSummed(old(frame[..])), GetSize(old(frame[..])))
  {
    hide Put16, GenerateChecksum, GenerateUdpChecksum;
    ghost var was := frame[..];
    EthernetUtils.StoreHtons(frame, IP_CHECK, 0);
    var header := frame[IP..UDP];
    assert header == Put16(was, IP_CHECK, 0)[IP..UDP];
    EthernetUtils.StoreHtons(frame, IP_CHECK, GenerateChecksum(header));
    assert frame[..] == IpSummed(was);
    WriteUdpChecksum(frame);
  }

  /** GenerateUDPChecksum zeroes the field before it sums. */
  method WriteUdpChecksum(frame: array<byte>)
    requires frame.Length >= FRAME_HDR && frame.Length >= MRP + GetSize(frame[..])
    modifies frame
    ensures frame[..] == UdpSummed(old(frame[..]), GetSize(old(frame[..])))
  {
    hide Put16, GenerateUdpChecksum;
    var payloadLength := GetSize(frame[..]);
    EthernetUtils.StoreHtons(frame, UDP_CHECK, 0);
    EthernetUtils.StoreHtons(frame, UDP_CHECK, GenerateUdpChecksum(frame[..], payloadLength));
  }

  /** The size of the working buffer, a `uint` expression. */
  function SizeOfMrp(size: nat, max: nat): u32 {
    (FRAME_HDR + TRIGGER_SIZE * Min(size, max)) % TWO_32
  }

  /** The working buffer has room for the copies exactly as long as its size does not
      overflow 32 bits; 357913937 triggers are the first to overflow it. */
  lemma CopiesFitExactlyBelow32Bits(size: nat, max: nat)
    ensures SizeOfMrp(size, max) == FRAME_HDR + TRIGGER_SIZE * Min(size, max) <==> Min(size, max) < 357913937
    ensures SizeOfMrp(357913937, 357913937) == 2
  {
  }

  /** The bytes of `s` after the header are the last `n` triggers, last one first. */
  predicate Packed(s: seq<byte>, triggers: seq<TriggerRawHdr>, n: nat) {
    && n <= |triggers|
    && |s| >= FRAME_HDR + TRIGGER_SIZE * n
    && s[FRAME_HDR..FRAME_HDR + TRIGGER_SIZE * n] == Payload(Reversed(triggers[|triggers| - n..]))
  }

  lemma PackOne(s: seq<byte>, triggers: seq<TriggerRawHdr>, n: nat)
    requires Packed(s, triggers, n) && n < |triggers| && |s| >= FRAME_HDR + TRIGGER_SIZE * (n + 1)
    ensures Packed(EthernetUtils.Overwritten(s, FRAME_HDR + TRIGGER_SIZE * n, TriggerBytes(triggers[|triggers| - n - 1])),
                   triggers, n + 1)
  {
    hide Payload, TriggerBytes, Reversed;
    PackedOneMore(triggers, n);
    var at := FRAME_HDR + TRIGGER_SIZE * n;
    var bs := TriggerBytes(triggers[|triggers| - n - 1]);
    assert EthernetUtils.Overwritten(s, at, bs)[FRAME_HDR..at + TRIGGER_SIZE] == s[FRAME_HDR..at] + bs;
  }

  /** The loop of lines 231 to 240: the batch is emptied from the back, up to `max`,
      and the working buffer is filled to its end. */
  method PackTriggers(triggers: seq<TriggerRawHdr>, max: nat) returns (buff: array<byte>, rest: seq<TriggerRawHdr>, n: nat)
    requires Min(|triggers|, max) < 357913937
    ensures n == Min(|triggers|, max) && rest == triggers[..|triggers| - n]
    ensures fresh(buff) && buff.Length == FRAME_HDR + TRIGGER_SIZE * n
    ensures buff[FRAME_HDR..] == Payload(Reversed(triggers[|triggers| - n..]))
  {
    hide Payload, TriggerBytes, Reversed, SizeOfMrp, Packed, EthernetUtils.Overwritten;
    var offset := FRAME_HDR;
    CopiesFitExactlyBelow32Bits(|triggers|, max);
    buff := new byte[SizeOfMrp(|triggers|, max)];
    rest, n := triggers, 0;
    NothingPacked(buff[..], triggers);
    while |rest| != 0 && n != max
      invariant n <= Min(|triggers|, max) && rest == triggers[..|triggers| - n]
      invariant offset == FRAME_HDR + TRIGGER_SIZE * n
      invariant Packed(buff[..], triggers, n)
    {
      var trigger := rest[|rest| - 1];
      rest := rest[..|rest| - 1];
      PackOne(buff[..], triggers, n);
      EthernetUtils.CopyTo(buff, offset, TriggerBytes(trigger));
      offset := offset + TRIGGER_SIZE;
      n := n + 1;
    }
    FullyPacked(buff[..], triggers, n);
  }

  lemma NothingPacked(s: seq<byte>, triggers: seq<TriggerRawHdr>)
    requires |s| >= FRAME_HDR
    ensures Packed(s, triggers, 0)
  {
    assert s[FRAME_HDR..FRAME_HDR] == [] == Payload(Reversed(triggers[|triggers|..]));
  }

  lemma FullyPacked(s: seq<byte>, triggers: seq<TriggerRawHdr>, n: nat)
    requires Packed(s, triggers, n) && |s| == FRAME_HDR + TRIGGER_SIZE * n
    ensures s[FRAME_HDR..] == Payload(Reversed(triggers[|triggers| - n..]))
  {
  }

  lemma PackedOneMore(triggers: seq<TriggerRawHdr>, n: nat)
    requires n < |triggers|
    ensures var m := |triggers| - n;
            Payload(Reversed(triggers[m - 1..])) == Payload(Reversed(triggers[m..])) + TriggerBytes(triggers[m - 1])
  {
    var m := |triggers| - n;
    var hs := Reversed(triggers[m - 1..]);
    assert hs[..|hs| - 1] == Reversed(triggers[m..]);
    assert hs[|hs| - 1] == triggers[m - 1];
  }

  /** The body of the two endpoint loops: a fresh frame, header over payload. */
  method MakeFrame(buff: array<byte>, template: array<byte>, n: nat, ghost hs: seq<TriggerRawHdr>) returns (frame: array<byte>)
    requires template.Length == FRAME_HDR && n == |hs|
    requires buff.Length == FRAME_HDR + TRIGGER_SIZE * n && buff[FRAME_HDR..] == Payload(hs)
    ensures fresh(frame) && frame[..] == MrpFrame(template[..], hs)
  {
    hide Put16, Trunc16, SetNumberOfTriggers, UdpSummed, IpSummed, Payload, TriggerBytes;
    frame := new byte[buff.Length];
    EthernetUtils.CopyTo(frame, 0, buff[..]);
    EthernetUtils.CopyTo(frame, 0, template[..]);
    assert frame[..] == template[..] + Payload(hs);
    WriteNumberOfTriggers(frame, Trunc16(n));
    WriteChecksums(frame);
  }

  class Handler {
    const maxTriggersPerMrp: nat
    const unicastHdrs: seq<array<byte>>
    const multicastHdrs: seq<array<byte>>
    var triggersSent: nat
    var mrpsSent: nat
    /** What AsyncSendFrame has been given, oldest first. */
    var sent: seq<DataContainer>

    ghost predicate Valid()
      reads this, unicastHdrs, multicastHdrs
    {
      forall i :: 0 <= i < |Templates()| ==> Templates()[i].Length == FRAME_HDR
    }

    function Templates(): seq<array<byte>>
    {
      unicastHdrs + multicastHdrs
    }

    constructor (max: nat, unicast: seq<array<byte>>, multicast: seq<array<byte>>)
      requires forall i :: 0 <= i < |unicast| ==> unicast[i].Length == FRAME_HDR
      requires forall i :: 0 <= i < |multicast| ==> multicast[i].Length == FRAME_HDR
      ensures Valid() && maxTriggersPerMrp == max && Templates() == unicast + multicast
      ensures triggersSent == 0 && mrpsSent == 0 && sent == []
    {
      maxTriggersPerMrp, unicastHdrs, multicastHdrs := max, unicast, multicast;
      triggersSent, mrpsSent, sent := 0, 0, [];
    }

    /** One of the two endpoint loops: a frame for every template, in order, in a
        buffer of its own. */
    method SendToEndpoints(hdrs: seq<array<byte>>, buff: array<byte>, n: nat, ghost hs: seq<TriggerRawHdr>)
      requires forall i :: 0 <= i < |hdrs| ==> hdrs[i].Length == FRAME_HDR
      requires n == |hs| && buff.Length == FRAME_HDR + TRIGGER_SIZE * n && buff[FRAME_HDR..] == Payload(hs)
      modifies this`sent
      ensures old(sent) <= sent && FramesFor(sent[|old(sent)|..], hdrs, hs)
      ensures forall k :: |old(sent)| <= k < |sent| ==> fresh(sent[k].data)
      ensures forall j, k :: |old(sent)| <= j < k < |sent| ==> sent[j].data != sent[k].data
    {
      hide Payload, MrpFrame;
      var i := 0;
      ghost var base := |sent|;
      while i < |hdrs|
        invariant 0 <= i <= |hdrs|
        invariant old(sent) <= sent && |sent| == base + i
        invariant forall k :: base <= k < base + i ==> FrameFor(sent[k], hdrs[k - base], hs)
        invariant forall k :: base <= k < base + i ==> fresh(sent[k].data)
        invariant forall j, k :: base <= j < k < base + i ==> sent[j].data != sent[k].data
      {
        var frame := MakeFrame(buff, hdrs[i], n, hs);
        sent := sent + [DataContainer(frame, frame.Length, true)];
        i := i + 1;
      }
    }

    /** Both endpoint loops, unicast first. */
    method SendToAll(buff: array<byte>, n: nat, ghost hs: seq<TriggerRawHdr>)
      requires Valid()
      requires n == |hs| && buff.Length == FRAME_HDR + TRIGGER_SIZE * n && buff[FRAME_HDR..] == Payload(hs)
      modifies this`sent
      ensures old(sent) <= sent && FramesFor(sent[|old(sent)|..], Templates(), hs)
      ensures forall k :: |old(sent)| <= k < |sent| ==> fresh(sent[k].data)
      ensures forall j, k :: |old(sent)| <= j < k < |sent| ==> sent[j].data != sent[k].data
    {
      hide Payload, MrpFrame, FrameFor, FramesFor;
      assert forall i :: 0 <= i < |unicastHdrs| ==> unicastHdrs[i] == Templates()[i];
      assert forall i :: 0 <= i < |multicastHdrs| ==> multicastHdrs[i] == Templates()[|unicastHdrs| + i];
      ghost var base := |sent|;
      SendToEndpoints(unicastHdrs, buff, n, hs);
      ghost var unicast := sent[base..];
      SendToEndpoints(multicastHdrs, buff, n, hs);
      FramesConcat(unicast, sent[base + |unicast|..], unicastHdrs, multicastHdrs, hs);
      assert sent[base..] == unicast + sent[base + |unicast|..];
    }

    /** Async_SendMRP: the last min(size, MAX) triggers leave the batch. Each endpoint,
        unicast first, is sent one frame of its own that carries them last one first
        under its template; templates and earlier frames stay as they are. */
    method AsyncSendMrp(triggers: seq<TriggerRawHdr>) returns (rest: seq<TriggerRawHdr>)
      requires Valid() && Min(|triggers|, maxTriggersPerMrp) < 357913937
      modifies this`sent, this`triggersSent, this`mrpsSent
      ensures Valid()
      ensures |rest| == |triggers| - Min(|triggers|, maxTriggersPerMrp) && rest == triggers[..|rest|]
      ensures old(sent) <= sent && |sent| == |old(sent)| + |Templates()|
      ensures forall k :: |old(sent)| <= k < |sent| ==>
                && sent[k].data[..] == MrpFrame(Templates()[k - |old(sent)|][..], Reversed(triggers[|rest|..]))
                && sent[k].length == sent[k].data.Length == 54 + 12 * (|triggers| - |rest|)
                && sent[k].ownerMayFreeData
      ensures forall k :: |old(sent)| <= k < |sent| ==> fresh(sent[k].data)
      ensures forall j, k :: |old(sent)| <= j < k < |sent| ==> sent[j].data != sent[k].data
      ensures triggersSent == Wrap64(old(triggersSent) + |triggers| - |rest|)
      ensures mrpsSent == Wrap64(old(mrpsSent) + 1)
    {
      hide Payload, MrpFrame, FrameFor, FramesFor;
      var buff, left, n := PackTriggers(triggers, maxTriggersPerMrp);
      rest := left;
      ghost var hs, base := Reversed(triggers[|rest|..]), |sent|;
      SendToAll(buff, n, hs);
      triggersSent := Wrap64(triggersSent + n);
      mrpsSent := Wrap64(mrpsSent + 1);
      FramesSpelledOut(sent, base, Templates(), hs);
    }
  }

  /** The container that an endpoint with this template is sent for `hs`. */
  ghost predicate FrameFor(c: DataContainer, template: array<byte>, hs: seq<TriggerRawHdr>)
    reads c.data, template
  {
    && template.Length == FRAME_HDR
    && c.data[..] == MrpFrame(template[..], hs)
    && c.length == c.data.Length
    && c.ownerMayFreeData
  }

  /** One container per template, in order. */
  ghost predicate FramesFor(cs: seq<DataContainer>, hdrs: seq<array<byte>>, hs: seq<TriggerRawHdr>)
    reads set i | 0 <= i < |cs| :: cs[i].data
    reads hdrs
  {
    |cs| == |hdrs| && forall i :: 0 <= i < |cs| ==> FrameFor(cs[i], hdrs[i], hs)
  }

  lemma FramesConcat(cs: seq<DataContainer>, ds: seq<DataContainer>, g: seq<array<byte>>, h: seq<array<byte>>, hs: seq<TriggerRawHdr>)
    requires FramesFor(cs, g, hs) && FramesFor(ds, h, hs)
    ensures FramesFor(cs + ds, g + h, hs)
  {
    hide FrameFor;
  }

  lemma FramesSpelledOut(sent: seq<DataContainer>, base: nat, hdrs: seq<array<byte>>, hs: seq<TriggerRawHdr>)
    requires base <= |sent| && FramesFor(sent[base..], hdrs, hs)
    ensures |sent| == base + |hdrs|
    ensures forall k :: base <= k < |sent| ==>
              && hdrs[k - base].Length == 54 && sent[k].data[..] == MrpFrame(hdrs[k - base][..], hs)
              && sent[k].length == sent[k].data.Length == 54 + 12 * |hs| && sent[k].ownerMayFreeData
  {
    hide MrpFrame;
    forall k | base <= k < |sent|
      ensures hdrs[k - base].Length == 54 && sent[k].data[..] == MrpFrame(hdrs[k - base][..], hs)
      ensures sent[k].length == sent[k].data.Length == 54 + 12 * |hs| && sent[k].ownerMayFreeData
    {
      assert sent[base..][k - base] == sent[k];
      assert FrameFor(sent[k], hdrs[k - base], hs);
      assert |sent[k].data[..]| == sent[k].data.Length;
    }
  }
}
