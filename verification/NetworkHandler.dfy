/** The sending half of the PF_RING NetworkHandler, imperatively: padding, the length
    gate and the retry loop (socket/PFringHandler.cpp, socket/PFring.cpp). What the
    ring answers to successive `pfring_send` calls is an input; what it is offered, an
    output. */
module NetworkHandler {
  import opened Bytes
  import SendSide

  datatype Outcome =
    | Refused                            // no ring, or longer than 1500 bytes
    | Accepted(attempts: nat, rc: int)   // the ring took it at this attempt
    | StillTrying                        // every answer so far was negative

  /** PFring::send_packet: without a ring, or above 1500 bytes, nothing is offered; any
      other packet is offered unchanged until the answer is not negative. */
  method SendPacket(hasRing: bool, pkt: array<byte>, pktLen: nat, answers: seq<int>)
    returns (r: Outcome, offered: seq<seq<byte>>)
    requires pktLen <= pkt.Length
    ensures r.Refused? <==> !hasRing || pktLen > 1500
    ensures r.Refused? ==> offered == []
    ensures r.Accepted? ==>
              && 0 < r.attempts == |offered| <= |answers| && r.rc == answers[r.attempts - 1] >= 0
              && forall j :: 0 <= j < r.attempts - 1 ==> answers[j] < 0
    ensures r.StillTrying? ==> |offered| == |answers| && forall j :: 0 <= j < |answers| ==> answers[j] < 0
    ensures forall k :: 0 <= k < |offered| ==> offered[k] == pkt[..pktLen]
  {
    offered := [];
    if !hasRing {
      return Refused, [];
    }
    if pktLen > SendSide.MAX_FRAME {
      return Refused, [];
    }
    var rc := -1;
    while rc < 0 && |offered| < |answers|
      decreases |answers| - |offered|
      invariant |offered| <= |answers|
      invariant forall k :: 0 <= k < |offered| ==> offered[k] == pkt[..pktLen]
      invariant rc < 0 ==> forall j :: 0 <= j < |offered| ==> answers[j] < 0
      invariant rc >= 0 ==> 0 < |offered| && rc == answers[|offered| - 1]
      invariant forall j :: 0 <= j < |offered| - 1 ==> answers[j] < 0
    {
      rc := answers[|offered|];
      offered := offered + [pkt[..pktLen]];
    }
    r := if rc < 0 then StillTrying else Accepted(|offered|, rc);
  }

  class Sender {
    var framesSent: nat
    const hasRing: bool

    constructor (hasRing: bool)
      ensures framesSent == 0 && this.hasRing == hasRing
    {
      framesSent := 0;
      this.hasRing := hasRing;
    }

    /** SendFrameConcurrently: count, pad to 60 bytes with zeros, hand over. The frame is
        counted whether or not it is refused, and the caller's buffer is left alone. */
    method SendFrameConcurrently(pkt: array<byte>, pktLen: nat, answers: seq<int>)
      returns (r: Outcome, offered: seq<seq<byte>>)
      requires pktLen <= pkt.Length
      modifies this`framesSent
      ensures framesSent == (old(framesSent) + 1) % 0x1_0000_0000_0000_0000
      ensures r.Refused? <==> !hasRing || pktLen > 1500
      ensures r.Refused? ==> offered == []
      ensures r.Accepted? ==>
                && 0 < r.attempts == |offered| <= |answers| && r.rc == answers[r.attempts - 1] >= 0
                && forall j :: 0 <= j < r.attempts - 1 ==> answers[j] < 0
      ensures r.StillTrying? ==> |offered| == |answers| && forall j :: 0 <= j < |answers| ==> answers[j] < 0
      ensures forall k :: 0 <= k < |offered| ==>
                && |offered[k]| == (if pktLen < 60 then 60 else pktLen)
                && pkt[..pktLen] <= offered[k] && forall j :: pktLen <= j < |offered[k]| ==> offered[k][j] == 0
    {
      framesSent := Wrap64(framesSent + 1);
      if pktLen < SendSide.MIN_FRAME {
        var buff := new byte[SendSide.MIN_FRAME];
        forall i | 0 <= i < pktLen {
          buff[i] := pkt[i];
        }
        forall i | pktLen <= i < SendSide.MIN_FRAME {
          buff[i] := 0;
        }
        assert buff[..SendSide.MIN_FRAME] == SendSide.OnWire(pkt[..pktLen]);
        r, offered := SendPacket(hasRing, buff, SendSide.MIN_FRAME, answers);
      } else {
        r, offered := SendPacket(hasRing, pkt, pktLen, answers);
      }
    }
  }
}
