/** What arrives: from the frames that the pipeline produced to the bytes on the wire,
    and from those to the requests that a station takes in. */
module Delivery {
  import opened Bytes
  import opened Wire
  import EthernetUtils
  import L1 = L1Pipeline
  import Guarantees = L1Guarantees
  import Net = SendSide
  import opened NetworkingSystem

  // ----- every frame exactly once -----

  /** The frames in these containers, as they go out. */
  function Padded(items: seq<Net.Container>): (bs: seq<seq<byte>>)
    ensures |bs| == |items|
  {
    seq(|items|, i requires 0 <= i < |items| => Net.OnWire(items[i].bytes))
  }

  /** Ticket `t` is the frame at position `t` of the queue's history. */
  ghost predicate ExactlyOnce(wire: seq<Net.Transmission>, items: seq<Net.Container>) {
    && (forall i :: 0 <= i < |wire| ==> wire[i].ticket < |items| && wire[i].bytes == Net.OnWire(items[wire[i].ticket].bytes))
    && (forall i, j :: 0 <= i < j < |wire| ==> wire[i].ticket != wire[j].ticket)
    && (forall t: nat :: t < |items| ==> Net.InWire(wire, t))
  }

  lemma WithoutOne(wire: seq<Net.Transmission>, items: seq<Net.Container>, i: nat)
    requires ExactlyOnce(wire, items) && |items| > 0 && i < |wire| && wire[i].ticket == |items| - 1
    ensures ExactlyOnce(wire[..i] + wire[i + 1..], items[..|items| - 1])
  {
    hide Net.OnWire;
    var w, n := wire[..i] + wire[i + 1..], |items| - 1;
    assert forall j :: 0 <= j < |w| ==> w[j] == wire[if j < i then j else j + 1];
    forall t: nat | t < n ensures Net.InWire(w, t) {
      assert Net.InWire(wire, t);
      var j :| 0 <= j < |wire| && wire[j].ticket == t;
      assert w[if j < i then j else j - 1] == wire[j];
    }
    forall j | 0 <= j < |w|
      ensures w[j].ticket < n && w[j].bytes == Net.OnWire(items[..n][w[j].ticket].bytes)
    {
      var k := if j < i then j else j + 1;
      assert w[j] == wire[k] && wire[k].ticket != wire[i].ticket;
      assert items[..n][w[j].ticket] == items[w[j].ticket];
    }
  }

  lemma BytesWithoutAt(wire: seq<Net.Transmission>, i: nat)
    requires i < |wire|
    ensures var bs := Net.BytesOf(wire);
            Net.BytesOf(wire[..i] + wire[i + 1..]) == bs[..i] + bs[i + 1..]
  {
  }

  lemma WithoutAt<T>(s: seq<T>, i: nat)
    requires i < |s|
    ensures multiset(s) == multiset(s[..i] + s[i + 1..]) + multiset{s[i]}
    ensures multiset(s) - multiset{s[i]} == multiset(s[..i] + s[i + 1..])
  {
    assert s == s[..i] + [s[i]] + s[i + 1..];
  }

  lemma NothingOnWire(wire: seq<Net.Transmission>, items: seq<Net.Container>)
    requires ExactlyOnce(wire, items) && items == []
    ensures wire == [] && Net.BytesOf(wire) == Padded(items) == []
  {
    assert |wire| > 0 ==> wire[0].ticket < |items|;
  }

  lemma LastPadded(items: seq<Net.Container>)
    requires items != []
    ensures var n := |items| - 1;
            multiset(Padded(items)) == multiset(Padded(items[..n])) + multiset{Net.OnWire(items[n].bytes)}
  {
    hide Net.OnWire;
    var n := |items| - 1;
    assert Padded(items) == Padded(items[..n]) + [Net.OnWire(items[n].bytes)];
  }

  lemma WireWithoutAt(wire: seq<Net.Transmission>, i: nat)
    requires i < |wire|
    ensures multiset(Net.BytesOf(wire)) == multiset(Net.BytesOf(wire[..i] + wire[i + 1..])) + multiset{wire[i].bytes}
  {
    BytesWithoutAt(wire, i);
    WithoutAt(Net.BytesOf(wire), i);
  }

  /** Then the wire carries the padded frames, each as often as it was queued. */
  lemma {:induction false} WireIsPermutation(wire: seq<Net.Transmission>, items: seq<Net.Container>)
    requires ExactlyOnce(wire, items)
    ensures |wire| == |items| && multiset(Net.BytesOf(wire)) == multiset(Padded(items))
    decreases |items|
  {
    hide Net.OnWire, Net.BytesOf, Padded;
    if items == [] {
      NothingOnWire(wire, items);
    } else {
      var n := |items| - 1;
      assert Net.InWire(wire, n);
      var i :| 0 <= i < |wire| && wire[i].ticket == n;
      assert wire[i].bytes == Net.OnWire(items[n].bytes);
      WithoutOne(wire, items, i);
      hide ExactlyOnce;
      WireIsPermutation(wire[..i] + wire[i + 1..], items[..n]);
      WireWithoutAt(wire, i);
      LastPadded(items);
    }
  }

  /** For any number of packet handler threads: at rest and with at most 120 triggers
      per MRP, every frame ever enqueued has gone out exactly once. */
  lemma EveryFrameExactlyOnce(c: Config, run: seq<State>, i: nat)
    requires WellFormed(c) && IsRun(c, run) && i < |run| && c.l1.max <= 120 && Quiescent(run[i].net)
    ensures var n := run[i].net;
            && ExactlyOnce(n.wire, n.enqueued)
            && |n.wire| == |n.enqueued| && multiset(Net.BytesOf(n.wire)) == multiset(Padded(n.enqueued))
  {
    hide L1.Inv, LinkInv, OrderInv, Net.TicketInv, Net.FreedInv, Net.CountInv, Net.BuffersInv, Net.InWire, Net.OnWire,
         Net.SomeoneHanded, Net.BytesOf, Padded;
    RunInv(c, run, i);
    NothingRefused(c, run, i);
    QuiescentDone(run[i].net);
    WireIsPermutation(run[i].net.wire, run[i].net.enqueued);
  }

  lemma TicketsBelow(wire: seq<Net.Transmission>, n: nat, i: nat)
    requires forall i, j :: 0 <= i < j < |wire| ==> wire[i].ticket < wire[j].ticket
    requires forall i :: 0 <= i < |wire| ==> wire[i].ticket < n
    ensures |wire| > 0 ==> n > 0
    ensures i < |wire| && wire[i].ticket == n - 1 ==> i == |wire| - 1
  {
    if |wire| > 0 {
      assert wire[|wire| - 1].ticket < n;
    }
  }

  lemma {:induction false} IncreasingCover(wire: seq<Net.Transmission>, n: nat)
    requires forall i, j :: 0 <= i < j < |wire| ==> wire[i].ticket < wire[j].ticket
    requires forall i :: 0 <= i < |wire| ==> wire[i].ticket < n
    requires forall t: nat :: t < n ==> Net.InWire(wire, t)
    ensures |wire| == n && forall i :: 0 <= i < n ==> wire[i].ticket == i
    decreases n
  {
    if n == 0 {
      TicketsBelow(wire, n, 0);
    } else {
      assert Net.InWire(wire, n - 1);
      var i :| 0 <= i < |wire| && wire[i].ticket == n - 1;
      var w := wire[..|wire| - 1];
      TicketsBelow(wire, n, i);
      forall t: nat | t < n - 1 ensures Net.InWire(w, t) {
        assert Net.InWire(wire, t);
        var j :| 0 <= j < |wire| && wire[j].ticket == t;
        assert w[j].ticket == t;
      }
      IncreasingCover(w, n - 1);
    }
  }

  /** With a single packet handler thread, in the order of the queue. */
  lemma SingleSenderInOrder(c: Config, run: seq<State>, i: nat)
    requires WellFormed(c) && IsRun(c, run) && i < |run| && c.l1.max <= 120 && Quiescent(run[i].net)
    requires forall p, q | p in run[i].net.senders && q in run[i].net.senders :: p == q
    ensures Net.BytesOf(run[i].net.wire) == Padded(run[i].net.enqueued)
  {
    hide L1.Inv, LinkInv, Net.TicketInv, Net.FreedInv, Net.CountInv, Net.BuffersInv, Net.InWire, Net.OnWire, Net.SomeoneHanded;
    EveryFrameExactlyOnce(c, run, i);
    RunInv(c, run, i);
    var n := run[i].net;
    IncreasingCover(n.wire, |n.enqueued|);
    assert Net.BytesOf(n.wire) == Padded(n.enqueued);
  }

  // ----- what a station takes in -----

  /** The requests of a frame for the station at IP address `ip`, in push order. */
  function Taken(b: seq<byte>, ip: seq<byte>): seq<Request> {
    var d := Decode(b);
    if d.Some? && d.value.dstIp == ip then Reversed(d.value.requests) else []
  }

  /** What that station makes of everything on the wire. */
  function ReceivedAt(bs: seq<seq<byte>>, ip: seq<byte>): seq<Request> {
    if |bs| == 0 then [] else ReceivedAt(bs[..|bs| - 1], ip) + Taken(bs[|bs| - 1], ip)
  }

  lemma {:induction false} ReceivedConcat(a: seq<seq<byte>>, b: seq<seq<byte>>, ip: seq<byte>)
    ensures ReceivedAt(a + b, ip) == ReceivedAt(a, ip) + ReceivedAt(b, ip)
  {
    hide Taken;
    if |b| == 0 {
      assert a + b == a;
    } else {
      ReceivedConcat(a, b[..|b| - 1], ip);
      assert (a + b)[..|a + b| - 1] == a + b[..|b| - 1];
    }
  }

  lemma ReceivedOne(b: seq<byte>, ip: seq<byte>)
    ensures ReceivedAt([b], ip) == Taken(b, ip)
  {
    hide Taken;
    assert [b][..0] == [];
  }

  /** What arrives does not depend on the order of the wire, except in its order. */
  lemma {:induction false} ReceivedPermutation(a: seq<seq<byte>>, b: seq<seq<byte>>, ip: seq<byte>)
    requires multiset(a) == multiset(b)
    ensures multiset(ReceivedAt(a, ip)) == multiset(ReceivedAt(b, ip))
    decreases |a|
  {
    hide Taken, ReceivedAt;
    if |a| == 0 {
      assert |multiset(b)| == 0;
    } else {
      var n, x := |a| - 1, a[|a| - 1];
      assert a == a[..n] + [x];
      assert x in multiset(b);
      var i :| 0 <= i < |b| && b[i] == x;
      assert b == b[..i] + [x] + b[i + 1..];
      WithoutAt(b, i);
      WithoutAt(a, n);
      assert a[..n] + a[n + 1..] == a[..n];
      ReceivedPermutation(a[..n], b[..i] + b[i + 1..], ip);
      ReceivedConcat(a[..n], [x], ip);
      ReceivedConcat(b[..i], b[i + 1..], ip);
      ReceivedConcat(b[..i] + [x], b[i + 1..], ip);
      ReceivedConcat(b[..i], [x], ip);
    }
  }

  function FrameBytes(frames: seq<L1.Frame>): (bs: seq<seq<byte>>)
    ensures |bs| == |frames|
  {
    seq(|frames|, i requires 0 <= i < |frames| => frames[i].bytes)
  }

  function ItemBytes(items: seq<Net.Container>): (bs: seq<seq<byte>>)
    ensures |bs| == |items|
  {
    seq(|items|, i requires 0 <= i < |items| => items[i].bytes)
  }

  /** An ARP frame carries no requests. */
  lemma ArpTaken(c: Config, ip: seq<byte>)
    requires WellFormed(c)
    ensures Taken(Net.OnWire(c.arp), ip) == []
  {
    hide EthernetUtils.ArpFrame;
    EthernetUtils.ArpFields(Announcement(c), []);
    assert c.arp + [] == c.arp;
    var b := Net.OnWire(c.arp);
    assert b[ETHER_TYPE] == c.arp[ETHER_TYPE] && b[ETHER_TYPE + 1] == c.arp[ETHER_TYPE + 1];
    assert Net16(b, ETHER_TYPE) == EthernetUtils.ETHERTYPE_ARP;
  }

  /** Padding and ARP frames make no difference to what arrives. */
  lemma {:induction false} ReceivedFromItems(c: Config, items: seq<Net.Container>, ip: seq<byte>)
    requires WellFormed(c)
    requires forall i :: 0 <= i < |items| ==>
               if items[i].buffer.MrpBuffer? then |items[i].bytes| >= Net.MIN_FRAME else items[i] == ArpItem(c)
    ensures ReceivedAt(Padded(items), ip) == ReceivedAt(ItemBytes(MrpItems(items)), ip)
  {
    hide WellFormed, Taken, ReceivedAt, Net.OnWire;
    if |items| == 0 {
      assert Padded(items) == ItemBytes(MrpItems(items));
    } else {
      var n := |items| - 1;
      var before, x := MrpItems(items[..n]), items[n];
      ReceivedFromItems(c, items[..n], ip);
      assert Padded(items) == Padded(items[..n]) + [Net.OnWire(x.bytes)];
      hide Padded;
      ReceivedConcat(Padded(items[..n]), [Net.OnWire(x.bytes)], ip);
      ReceivedOne(Net.OnWire(x.bytes), ip);
      if x.buffer.MrpBuffer? {
        assert ItemBytes(before + [x]) == ItemBytes(before) + [x.bytes];
        ReceivedConcat(ItemBytes(before), [x.bytes], ip);
        ReceivedOne(x.bytes, ip);
      } else {
        assert MrpItems(items) == before;
        ArpTaken(c, ip);
      }
    }
  }

  // ----- frames and their addresses -----

  /** The destination address in a template. */
  function AddressOf(t: seq<byte>): seq<byte>
    requires |t| == FRAME_HDR
  {
    t[IP_DADDR..UDP]
  }

  /** A frame that can be read at all is addressed to its endpoint. */
  predicate Addressed(c: L1.Config, f: L1.Frame)
    requires L1.WellFormed(c)
  {
    f.endpoint < |c.templates| &&
    var d := Decode(f.bytes);
    d.Some? ==> ValidTemplate(c.templates[f.endpoint]) && d.value.dstIp == AddressOf(c.templates[f.endpoint])
  }

  lemma {:induction false} FrameMember(frames: seq<L1.Frame>, i: nat)
    requires i < |frames|
    ensures frames[i].bytes in L1.FramesFor(frames, frames[i].endpoint)
  {
    if i < |frames| - 1 {
      FrameMember(frames[..|frames| - 1], i);
    }
  }

  lemma MrpFrameAddress(t: seq<byte>, hs: seq<TriggerRawHdr>)
    requires ValidTemplate(t)
    ensures |t| == FRAME_HDR
    ensures Decode(MrpFrame(t, hs)).Some? ==> Decode(MrpFrame(t, hs)).value.dstIp == AddressOf(t)
  {
    hide Decode, MrpFrame;
    FrameRoundTrip(t, hs);
  }

  lemma FramesAddressed(c: L1.Config, s: L1.State)
    requires L1.WellFormed(c) && L1.Inv(c, s)
    ensures forall i :: 0 <= i < |s.hist.frames| ==> Addressed(c, s.hist.frames[i])
  {
    hide Decode, MrpFrame, ValidTemplate, AddressOf, L1.FramesFor, L1.Raw, Reversed, L1.SentTo,
         L1.QueueInv, L1.AllocInv, L1.SizeInv, L1.OrderInv, L1.OwnershipInv, L1.FlushInv, L1.RetryInv, L1.PackedInv,
         L1.CounterInv, L1.TallyInv, L1.MrpSizeInv;
    var frames := s.hist.frames;
    forall i | 0 <= i < |frames| ensures Addressed(c, frames[i]) {
      FrameMember(frames, i);
      var e := frames[i].endpoint;
      var t := c.templates[e];
      assert ValidTemplate(t);
      L1.TemplateSize(t);
      var ms := L1.SentTo(s.pc, s.hist.mrps, |c.templates|, e);
      var k :| 0 <= k < |ms| && frames[i].bytes == L1.FramesOf(t, ms)[k];
      MrpFrameAddress(t, L1.Raw(Reversed(ms[k])));
    }
  }

  /** No other endpoint has the IP address of endpoint `e`. */
  predicate OwnAddress(c: L1.Config, e: nat)
    requires L1.WellFormed(c) && e < |c.templates|
  {
    forall k | 0 <= k < |c.templates| && k != e ::
      ValidTemplate(c.templates[k]) && ValidTemplate(c.templates[e]) && AddressOf(c.templates[k]) != AddressOf(c.templates[e])
  }

  /** The station of endpoint `e` takes in the frames produced for `e`, and only those. */
  lemma {:induction false} ReceivedFromFrames(c: L1.Config, frames: seq<L1.Frame>, e: nat)
    requires L1.WellFormed(c) && e < |c.templates| && OwnAddress(c, e)
    requires forall i :: 0 <= i < |frames| ==> Addressed(c, frames[i])
    ensures |c.templates[e]| == FRAME_HDR
    ensures ReceivedAt(FrameBytes(frames), AddressOf(c.templates[e])) == Guarantees.Received(L1.FramesFor(frames, e))
  {
    hide ValidTemplate, AddressOf, ReceivedAt, Taken, Guarantees.Received, Addressed, OwnAddress;
    assert ValidTemplate(c.templates[e]);
    L1.TemplateSize(c.templates[e]);
    if |frames| == 0 {
      assert FrameBytes(frames) == [];
      NothingReceived(AddressOf(c.templates[e]));
    } else {
      var n := |frames| - 1;
      var before := L1.FramesFor(frames[..n], e);
      ReceivedFromFrames(c, frames[..n], e);
      assert FrameBytes(frames) == FrameBytes(frames[..n]) + [frames[n].bytes];
      ReceivedConcat(FrameBytes(frames[..n]), [frames[n].bytes], AddressOf(c.templates[e]));
      ReceivedOne(frames[n].bytes, AddressOf(c.templates[e]));
      TakenByOwner(c, frames[n], e);
      if frames[n].endpoint == e {
        assert L1.FramesFor(frames, e) == before + [frames[n].bytes];
        ReceivedAppended(before, frames[n].bytes);
      } else {
        assert L1.FramesFor(frames, e) == before;
      }
    }
  }

  lemma NothingReceived(ip: seq<byte>)
    ensures ReceivedAt([], ip) == [] && Guarantees.Received([]) == []
  {
  }

  lemma ReceivedAppended(fs: seq<seq<byte>>, f: seq<byte>)
    ensures Guarantees.Received(fs + [f]) ==
            Guarantees.Received(fs) + if Decode(f).Some? then Reversed(Decode(f).value.requests) else []
  {
    hide Decode;
    assert (fs + [f])[..|fs|] == fs;
  }

  lemma TakenByOwner(c: L1.Config, f: L1.Frame, e: nat)
    requires L1.WellFormed(c) && e < |c.templates| && OwnAddress(c, e) && Addressed(c, f)
    ensures |c.templates[e]| == FRAME_HDR
    ensures Taken(f.bytes, AddressOf(c.templates[e])) ==
            if f.endpoint == e && Decode(f.bytes).Some? then Reversed(Decode(f.bytes).value.requests) else []
  {
    hide Decode, ValidTemplate, AddressOf;
    assert ValidTemplate(c.templates[e]);
    L1.TemplateSize(c.templates[e]);
  }

  // ----- end to end -----

  lemma ReceivedFromQueue(c: Config, s: State, e: nat)
    requires WellFormed(c) && Inv(c, s) && c.l1.max <= MAX_COHERENT && s.l1.pc.OuterHead?
    requires e < |c.l1.templates| && OwnAddress(c.l1, e)
    ensures |c.l1.templates[e]| == FRAME_HDR
    ensures ReceivedAt(Padded(s.net.enqueued), AddressOf(c.l1.templates[e])) ==
            Guarantees.Requested(L1.Kept(s.l1.hist.pops))
  {
    hide L1.Inv, Net.Inv, OrderInv, ReceivedAt, Guarantees.Received, Guarantees.Requested, L1.FramesFor, L1.Kept, Padded,
         ValidTemplate, AddressOf, Addressed, OwnAddress;
    assert ValidTemplate(c.l1.templates[e]);
    L1.TemplateSize(c.l1.templates[e]);
    var frames, ip := s.l1.hist.frames, AddressOf(c.l1.templates[e]);
    FrameSizes(c, s);
    ReceivedFromItems(c, s.net.enqueued, ip);
    assert ItemBytes(Items(frames)) == FrameBytes(frames);
    FramesAddressed(c.l1, s.l1);
    ReceivedFromFrames(c.l1, frames, e);
    MrpSizes(c.l1, s.l1);
    Guarantees.KeptTriggersReceived(c.l1, s.l1, e);
  }

  lemma MrpSizes(c: L1.Config, s: L1.State)
    requires L1.WellFormed(c) && L1.Inv(c, s)
    ensures L1.MrpSizeInv(c.max, s.hist.mrps)
  {
  }

  /** End to end for any number of packet handler threads, with at most 120 triggers per
      MRP: when everything has been sent, a station that takes in the frames addressed to
      it has got every trigger that was kept, exactly as often as it was kept. */
  lemma StationsReceiveKeptTriggers(c: Config, run: seq<State>, i: nat, e: nat)
    requires WellFormed(c) && IsRun(c, run) && i < |run| && c.l1.max <= 120
    requires Quiescent(run[i].net) && run[i].l1.pc.OuterHead?
    requires e < |c.l1.templates| && OwnAddress(c.l1, e)
    ensures |c.l1.templates[e]| == FRAME_HDR
    ensures multiset(ReceivedAt(Net.BytesOf(run[i].net.wire), AddressOf(c.l1.templates[e]))) ==
            multiset(Guarantees.Requested(L1.Kept(run[i].l1.hist.pops)))
  {
    hide Inv, ReceivedAt, Guarantees.Requested, L1.Kept, Padded, Net.BytesOf, AddressOf, OwnAddress, WellFormed, Quiescent;
    RunInv(c, run, i);
    ReceivedFromQueue(c, run[i], e);
    EveryFrameExactlyOnce(c, run, i);
    ReceivedPermutation(Net.BytesOf(run[i].net.wire), Padded(run[i].net.enqueued), AddressOf(c.l1.templates[e]));
  }

  /** With one packet handler thread, in push order. */
  lemma SingleSenderDeliversInOrder(c: Config, run: seq<State>, i: nat, e: nat)
    requires WellFormed(c) && IsRun(c, run) && i < |run| && c.l1.max <= 120
    requires Quiescent(run[i].net) && run[i].l1.pc.OuterHead?
    requires forall p, q | p in run[i].net.senders && q in run[i].net.senders :: p == q
    requires e < |c.l1.templates| && OwnAddress(c.l1, e)
    ensures |c.l1.templates[e]| == FRAME_HDR
    ensures ReceivedAt(Net.BytesOf(run[i].net.wire), AddressOf(c.l1.templates[e])) ==
            Guarantees.Requested(L1.Kept(run[i].l1.hist.pops))
  {
    hide Inv, ReceivedAt, Guarantees.Requested, L1.Kept, Padded, Net.BytesOf, AddressOf, OwnAddress, WellFormed, Quiescent;
    RunInv(c, run, i);
    ReceivedFromQueue(c, run[i], e);
    SingleSenderInOrder(c, run, i);
  }
}
