/** The pipeline and the send side together: the consumer's push blocks while the
    send queue is full, the ARP thread pushes its one buffer again and again, and
    every thread of both machines interleaves freely. */
module NetworkingSystem {
  import opened Bytes
  import Wire
  import EthernetUtils
  import L1 = L1Pipeline
  import Guarantees = L1Guarantees
  import Net = SendSide

  /** `arp` is the gratuitous ARP frame that the ARP thread makes of its addresses. */
  datatype Config = Config(l1: L1.Config, mac: seq<byte>, ip: u32, arp: seq<byte>)

  predicate WellFormed(c: Config) {
    && L1.WellFormed(c.l1)
    && |c.mac| == EthernetUtils.MAC_SIZE
    && c.arp == EthernetUtils.ArpFrame(Announcement(c))
  }

  function Announcement(c: Config): EthernetUtils.Arp {
    EthernetUtils.Arp(c.mac, c.ip, EthernetUtils.Zeros(6), c.ip, 1)
  }

  datatype State = State(l1: L1.State, net: Net.State)

  datatype Step =
    | Local(l1: L1.Step)       // any pipeline step except a push to the send queue
    | PushMrp                  // AsyncSendFrame({frame, offset, true})
    | PushArp                  // AsyncSendFrame(arp), whose buffer is never freed
    | Sender(net: Net.Step)    // a step of a packet handler thread

  predicate Init(s: State) {
    L1.Init(s.l1) && Net.Init(s.net)
  }

  function MrpItem(id: nat, bytes: seq<byte>): Net.Container {
    Net.Container(Net.MrpBuffer(id), bytes, true)
  }

  function ArpItem(c: Config): Net.Container {
    Net.Container(Net.ArpBuffer, c.arp, false)
  }

  predicate Enabled(s: State, step: Step) {
    match step
    case Local(l) => L1.Enabled(s.l1, l) && !(l.Consume? && s.l1.pc.PushFrame?)
    case PushMrp => s.l1.pc.PushFrame? && |s.net.queue| < Net.CAPACITY
    case PushArp => |s.net.queue| < Net.CAPACITY
    case Sender(n) => !n.Enqueue? && Net.Enabled(s.net, n)
  }

  function Apply(c: Config, s: State, step: Step): State
    requires WellFormed(c) && Enabled(s, step)
  {
    match step
    case Local(l) => s.(l1 := L1.Apply(c.l1, s.l1, l))
    case PushMrp =>
      State(L1.Apply(c.l1, s.l1, L1.Consume),
            Net.Apply(s.net, Net.Enqueue(MrpItem(|s.l1.hist.frames|, s.l1.pc.frame))))
    case PushArp => s.(net := Net.Apply(s.net, Net.Enqueue(ArpItem(c))))
    case Sender(n) => s.(net := Net.Apply(s.net, n))
  }

  ghost predicate Next(c: Config, s: State, s': State)
    requires WellFormed(c)
  {
    exists step :: Enabled(s, step) && s' == Apply(c, s, step)
  }

  ghost predicate IsRun(c: Config, run: seq<State>)
    requires WellFormed(c)
  {
    && |run| > 0 && Init(run[0])
    && forall i :: 0 <= i < |run| - 1 ==> Next(c, run[i], run[i + 1])
  }

  // ----- the link between the two machines -----

  /** The MRP frames among some containers, in order. */
  function MrpItems(items: seq<Net.Container>): seq<Net.Container> {
    if |items| == 0 then []
    else MrpItems(items[..|items| - 1])
         + if items[|items| - 1].buffer.MrpBuffer? then [items[|items| - 1]] else []
  }

  /** The containers that hold the frames the pipeline has produced, one buffer each. */
  function Items(frames: seq<L1.Frame>): (items: seq<Net.Container>)
    ensures |items| == |frames|
  {
    seq(|frames|, i requires 0 <= i < |frames| => MrpItem(i, frames[i].bytes))
  }

  ghost predicate LinkInv(c: Config, frames: seq<L1.Frame>, enqueued: seq<Net.Container>) {
    && MrpItems(enqueued) == Items(frames)
    && (forall i :: 0 <= i < |enqueued| ==>
          if enqueued[i].buffer.MrpBuffer?
          then enqueued[i].buffer.id < |frames| && enqueued[i] == MrpItem(enqueued[i].buffer.id, frames[enqueued[i].buffer.id].bytes)
          else enqueued[i] == ArpItem(c))
  }

  /** With a single packet handler thread, frames leave in the order of the queue. */
  ghost predicate OrderInv(senders: map<nat, Net.SenderPc>, dequeued: nat, wire: seq<Net.Transmission>) {
    (forall p, q | p in senders && q in senders :: p == q) ==>
      && (forall p <- senders :: !senders[p].Idle? ==> senders[p].job.ticket == dequeued - 1)
      && (forall i, j :: 0 <= i < j < |wire| ==> wire[i].ticket < wire[j].ticket)
  }

  ghost predicate Inv(c: Config, s: State)
    requires WellFormed(c)
  {
    && L1.Inv(c.l1, s.l1)
    && Net.Inv(s.net)
    && LinkInv(c, s.l1.hist.frames, s.net.enqueued)
    && OrderInv(s.net.senders, |s.net.dequeued|, s.net.wire)
  }

  lemma MrpItemsAppended(items: seq<Net.Container>, x: Net.Container)
    ensures MrpItems(items + [x]) == MrpItems(items) + if x.buffer.MrpBuffer? then [x] else []
  {
    assert (items + [x])[..|items|] == items;
  }

  lemma LocalFrames(c: L1.Config, s: L1.State, step: L1.Step)
    requires L1.WellFormed(c) && L1.Enabled(s, step) && !(step.Consume? && s.pc.PushFrame?)
    ensures L1.Apply(c, s, step).hist.frames == s.hist.frames
  {
    hide L1.WellFormed, L1.ConsumerStep;
    if step.Consume? {
      L1.ConsumerFrames(c, s);
    }
  }

  lemma PushMrpKeepsLink(c: Config, frames: seq<L1.Frame>, enqueued: seq<Net.Container>, k: nat, bytes: seq<byte>)
    requires LinkInv(c, frames, enqueued)
    ensures LinkInv(c, frames + [L1.Frame(k, bytes)], enqueued + [MrpItem(|frames|, bytes)])
    ensures forall i :: 0 <= i < |enqueued| ==> enqueued[i].buffer != Net.MrpBuffer(|frames|)
  {
    MrpItemsAppended(enqueued, MrpItem(|frames|, bytes));
    assert Items(frames + [L1.Frame(k, bytes)]) == Items(frames) + [MrpItem(|frames|, bytes)];
  }

  lemma PushArpKeepsLink(c: Config, frames: seq<L1.Frame>, enqueued: seq<Net.Container>)
    requires LinkInv(c, frames, enqueued)
    ensures LinkInv(c, frames, enqueued + [ArpItem(c)])
  {
    MrpItemsAppended(enqueued, ArpItem(c));
  }

  /** Which sender-side fields the order depends on, and how a step changes them. */
  lemma SenderKeepsOrder(s: Net.State, step: Net.Step)
    requires Net.Enabled(s, step) && Net.Inv(s) && OrderInv(s.senders, |s.dequeued|, s.wire)
    ensures var s' := Net.Apply(s, step); OrderInv(s'.senders, |s'.dequeued|, s'.wire)
  {
    hide Net.FreedInv, Net.CountInv, Net.BuffersInv, Net.OnWire, Net.InWire;
    match step {
      case Enqueue(_) =>
      case TryPop(p) => TakeKeepsOrder(s, p);
      case CountFrame(p) => AdvanceKeepsOrder(s.senders, |s.dequeued|, s.wire, p, Net.Counted(s.senders[p].job));
      case Ring(p, _) => HandKeepsOrder(s, p, step.accepts);
      case Release(p) => AdvanceKeepsOrder(s.senders, |s.dequeued|, s.wire, p, Net.Idle);
    }
  }

  lemma AdvanceKeepsOrder(senders: map<nat, Net.SenderPc>, n: nat, wire: seq<Net.Transmission>, p: nat, pc: Net.SenderPc)
    requires OrderInv(senders, n, wire) && p in senders && !senders[p].Idle?
    requires pc.Idle? || pc.job == senders[p].job
    ensures OrderInv(senders[p := pc], n, wire)
  {
    var senders' := senders[p := pc];
    assert senders'.Keys == senders.Keys;
    assert forall q :: q in senders <==> q in senders';
  }

  lemma TakeKeepsOrder(s: Net.State, p: nat)
    requires Net.SenderAt(s.senders, p).Idle? && OrderInv(s.senders, |s.dequeued|, s.wire)
    ensures var s' := Net.Take(s, p); OrderInv(s'.senders, |s'.dequeued|, s'.wire)
  {
    var s' := Net.Take(s, p);
    if forall a, b | a in s'.senders && b in s'.senders :: a == b {
      if s.queue != [] {
        assert p in s'.senders;
      }
      forall q | q in s.senders ensures q in s'.senders {
      }
    }
  }

  lemma HandKeepsOrder(s: Net.State, p: nat, accepts: bool)
    requires Net.SenderAt(s.senders, p).Counted? && OrderInv(s.senders, |s.dequeued|, s.wire)
    requires Net.TicketInv(s.senders, s.dequeued, s.done) && Net.WireInv(s.wire, s.dequeued)
    requires Net.SettledInv(s.senders, s.done, s.wire, s.refused, s.dequeued)
    ensures var s' := Net.Hand(s, p, s.senders[p].job, accepts); OrderInv(s'.senders, |s'.dequeued|, s'.wire)
  {
    hide Net.OnWire;
    Net.CountedUnsettled(s, p);
    var t := s.senders[p].job.ticket;
    forall i | 0 <= i < |s.wire| ensures s.wire[i].ticket != t {
      assert s.wire[i].ticket == t ==> Net.InWire(s.wire, t);
    }
    forall q | q in s.senders ensures q in Net.Hand(s, p, s.senders[p].job, accepts).senders {
    }
  }

  lemma InvStep(c: Config, s: State, step: Step)
    requires WellFormed(c) && Enabled(s, step) && Inv(c, s)
    ensures Inv(c, Apply(c, s, step))
  {
    hide LinkInv, OrderInv, L1.Inv, Net.Inv, L1.WellFormed, L1.ConsumerStep, Net.Take, Net.Count, Net.Hand, Net.Free, Items, MrpItems;
    match step {
      case Local(l) =>
        L1.InvStep(c.l1, s.l1, l);
        LocalFrames(c.l1, s.l1, l);
      case PushMrp =>
        var n, bytes := |s.l1.hist.frames|, s.l1.pc.frame;
        L1.InvStep(c.l1, s.l1, L1.Consume);
        L1.ConsumerFrames(c.l1, s.l1);
        PushMrpKeepsLink(c, s.l1.hist.frames, s.net.enqueued, s.l1.pc.k, bytes);
        Net.InvStep(s.net, Net.Enqueue(MrpItem(n, bytes)));
      case PushArp =>
        PushArpKeepsLink(c, s.l1.hist.frames, s.net.enqueued);
        Net.InvStep(s.net, Net.Enqueue(ArpItem(c)));
      case Sender(n) =>
        Net.InvStep(s.net, n);
        SenderKeepsOrder(s.net, n);
        SenderKeepsEnqueued(s.net, n);
    }
  }

  lemma SenderKeepsEnqueued(s: Net.State, step: Net.Step)
    requires Net.Enabled(s, step) && !step.Enqueue?
    ensures Net.Apply(s, step).enqueued == s.enqueued
  {
  }

  /** Safety of the whole system: the invariant holds in every state of every run. */
  lemma {:induction false} RunInv(c: Config, run: seq<State>, i: nat)
    requires WellFormed(c) && IsRun(c, run) && i < |run|
    ensures Inv(c, run[i])
    decreases i
  {
    hide Apply, L1.Inv, Net.Inv;
    if i == 0 {
      L1.InitInv(c.l1, run[0].l1);
      Net.InitInv(run[0].net);
    } else {
      RunInv(c, run, i - 1);
      assert Next(c, run[i - 1], run[i - 1 + 1]);
      var step :| Enabled(run[i - 1], step) && run[i] == Apply(c, run[i - 1], step);
      InvStep(c, run[i - 1], step);
    }
  }

  // ----- guarantees -----

  /** A freed buffer belonged to one dequeued frame, which has been settled. */
  lemma FreedBuffer(n: Net.State, x: Net.Buffer) returns (t: nat)
    requires Net.Inv(n) && x in n.freed
    ensures x.MrpBuffer? && t < |n.dequeued| && t in n.done
    ensures n.dequeued[t].buffer == x && n.dequeued[t].ownerMayFree
    ensures Net.InWire(n.wire, t) || t in n.refused
  {
    hide Net.CountInv, Net.WireInv, Net.InWire, Net.SomeoneHanded, Net.TicketInv;
    assert Net.FreedBy(n.done, n.dequeued, x);
    t :| t in n.done && t < |n.dequeued| && n.dequeued[t].ownerMayFree && n.dequeued[t].buffer == x;
    assert n.enqueued[t] == n.dequeued[t];
  }

  /** No other frame was ever in the buffer of a freeable one. */
  lemma OwnBuffer(n: Net.State, t: nat)
    requires Net.QueueInv(n.queue, n.enqueued, n.dequeued) && Net.BuffersInv(n.enqueued)
    requires t < |n.dequeued| && n.dequeued[t].ownerMayFree
    ensures forall u :: 0 <= u < |n.dequeued| && u != t ==> n.dequeued[u].buffer != n.dequeued[t].buffer
    ensures forall j :: 0 <= j < |n.queue| ==> n.queue[j].buffer != n.dequeued[t].buffer
  {
    assert n.enqueued[t] == n.dequeued[t];
    forall j | 0 <= j < |n.queue| ensures n.queue[j].buffer != n.dequeued[t].buffer {
      assert n.enqueued[|n.dequeued| + j] == n.queue[j];
    }
    forall u | 0 <= u < |n.dequeued| && u != t ensures n.dequeued[u].buffer != n.dequeued[t].buffer {
      assert n.enqueued[u] == n.dequeued[u];
    }
  }

  /** Buffer ownership over all runs: no buffer is freed twice, the ARP buffer never,
      none before its frame was handed to the ring or refused by it, and nothing
      that is queued or with a sender refers to a freed buffer. */
  lemma BuffersFreedOnceAfterSend(c: Config, run: seq<State>, i: nat)
    requires WellFormed(c) && IsRun(c, run) && i < |run|
    ensures var n := run[i].net;
            && (forall a, b :: 0 <= a < b < |n.freed| ==> n.freed[a] != n.freed[b])
            && (forall x <- n.freed :: x.MrpBuffer?)
            && (forall x <- n.freed :: exists t :: && 0 <= t < |n.dequeued| && n.dequeued[t].buffer == x
                                                  && (Net.InWire(n.wire, t) || t in n.refused))
            && (forall j :: 0 <= j < |n.queue| ==> n.queue[j].buffer !in n.freed)
            && (forall p <- n.senders :: !n.senders[p].Idle? ==> n.senders[p].job.item.buffer !in n.freed)
  {
    hide L1.Inv, LinkInv, OrderInv, Net.CountInv, Net.WireInv, Net.InWire, Net.SettledInv, Net.QueueInv, Net.BuffersInv,
         L1.WellFormed, EthernetUtils.ArpFrame;
    RunInv(c, run, i);
    var n := run[i].net;
    forall x | x in n.freed
      ensures x.MrpBuffer?
      ensures exists t :: 0 <= t < |n.dequeued| && n.dequeued[t].buffer == x && (Net.InWire(n.wire, t) || t in n.refused)
      ensures forall j :: 0 <= j < |n.queue| ==> n.queue[j].buffer != x
      ensures forall p <- n.senders :: !n.senders[p].Idle? ==> n.senders[p].job.item.buffer != x
    {
      var t := FreedBuffer(n, x);
      OwnBuffer(n, t);
    }
  }

  /** Nothing is left in the send queue and no sender is busy. */
  predicate Quiescent(n: Net.State) {
    n.queue == [] && forall p <- n.senders :: n.senders[p].Idle?
  }

  lemma QuiescentDone(n: Net.State)
    requires Net.Inv(n) && Quiescent(n)
    ensures n.dequeued == n.enqueued
    ensures forall t: nat :: t < |n.dequeued| ==> t in n.done
    ensures Net.Uncounted(n.senders) == {}
  {
    hide Net.WireInv, Net.SettledInv, Net.FreedInv, Net.CountInv, Net.BuffersInv;
    assert n.dequeued + [] == n.dequeued;
    forall t: nat | t < |n.dequeued| ensures t in n.done {
      assert !Net.SomeoneHolds(n.senders, t);
    }
  }

  lemma {:induction false} ItemMember(items: seq<Net.Container>, i: nat)
    requires i < |items| && items[i].buffer.MrpBuffer?
    ensures items[i] in MrpItems(items)
  {
    if i < |items| - 1 {
      ItemMember(items[..|items| - 1], i);
    }
  }

  lemma {:induction false} ItemSource(items: seq<Net.Container>, x: Net.Container) returns (i: nat)
    requires x in MrpItems(items)
    ensures i < |items| && items[i] == x
  {
    var n := |items| - 1;
    if items[n] == x {
      i := n;
    } else {
      i := ItemSource(items[..n], x);
    }
  }

  /** Conservation: frames counted as sent and frames still queued add up to the
      frames enqueued, up to those a sender has popped and not yet counted; the
      queue never exceeds its capacity; and when the send side is at rest, the
      buffer of every MRP frame ever produced has been freed. */
  lemma FramesConserved(c: Config, run: seq<State>, i: nat)
    requires WellFormed(c) && IsRun(c, run) && i < |run|
    ensures var n := run[i].net;
            && |n.queue| <= 1000
            && |n.queue| + |Net.Uncounted(n.senders)| <= |n.enqueued|
            && n.framesSent == (|n.enqueued| - |n.queue| - |Net.Uncounted(n.senders)|) % 0x1_0000_0000_0000_0000
    ensures Quiescent(run[i].net) ==>
              && run[i].net.framesSent == |run[i].net.enqueued| % 0x1_0000_0000_0000_0000
              && (forall id :: 0 <= id < |run[i].l1.hist.frames| ==> Net.MrpBuffer(id) in run[i].net.freed)
  {
    hide L1.Inv, OrderInv, Wrap64, Items, Net.WireInv, Net.SettledInv;
    RunInv(c, run, i);
    var n, frames := run[i].net, run[i].l1.hist.frames;
    assert |n.dequeued| + |n.queue| == |n.enqueued|;
    Wrap64Is(|n.enqueued| - |n.queue| - |Net.Uncounted(n.senders)|);
    if Quiescent(n) {
      QuiescentDone(n);
      forall id | 0 <= id < |frames| ensures Net.MrpBuffer(id) in n.freed {
        FrameEnqueued(c, frames, n.enqueued, id);
      }
    }
  }

  lemma FrameEnqueued(c: Config, frames: seq<L1.Frame>, enqueued: seq<Net.Container>, id: nat)
    requires LinkInv(c, frames, enqueued) && id < |frames|
    ensures exists t :: 0 <= t < |enqueued| && enqueued[t] == MrpItem(id, frames[id].bytes)
  {
    assert Items(frames)[id] == MrpItem(id, frames[id].bytes);
    var t := ItemSource(enqueued, MrpItem(id, frames[id].bytes));
  }

  /** The number of MRP frames and of ARP frames make up what was enqueued. */
  lemma {:induction false} EnqueuedCount(items: seq<Net.Container>)
    ensures |MrpItems(items)| == |items| - |ArpItems(items)|
  {
    if |items| != 0 {
      EnqueuedCount(items[..|items| - 1]);
    }
  }

  function ArpItems(items: seq<Net.Container>): seq<Net.Container> {
    if |items| == 0 then []
    else ArpItems(items[..|items| - 1])
         + if items[|items| - 1].buffer.ArpBuffer? then [items[|items| - 1]] else []
  }

  lemma FramesAtLoopHead(c: L1.Config, s: L1.State)
    requires L1.WellFormed(c) && L1.Inv(c, s) && s.pc.OuterHead?
    ensures |s.hist.frames| == |s.hist.mrps| * |c.templates|
  {
    hide L1.QueueInv, L1.AllocInv, L1.OrderInv, L1.OwnershipInv, L1.FrameInv, L1.CounterInv, L1.FrameSizeInv, L1.MrpSizeInv;
  }

  /** At rest and at the consumer's loop head, framesSent is the number of MRPs times
      the number of endpoints plus the number of ARP frames. */
  lemma FramesSentAtRest(c: Config, run: seq<State>, i: nat)
    requires WellFormed(c) && IsRun(c, run) && i < |run|
    requires Quiescent(run[i].net) && run[i].l1.pc.OuterHead?
    ensures run[i].net.framesSent ==
            (|run[i].l1.hist.mrps| * |c.l1.templates| + |ArpItems(run[i].net.enqueued)|) % 0x1_0000_0000_0000_0000
  {
    hide Wrap64, Items, MrpItems, OrderInv, Net.Inv, L1.Inv, Net.Uncounted, ArpItems;
    FramesConserved(c, run, i);
    RunInv(c, run, i);
    FramesAtLoopHead(c.l1, run[i].l1);
    EnqueuedCount(run[i].net.enqueued);
  }

  /** A frame of `n` triggers is refused by the length gate exactly for n > 120; it is
      padded exactly for n == 0, which no MRP has. */
  lemma GateOnTriggers(bytes: seq<byte>, n: nat)
    requires |bytes| == Wire.FRAME_HDR + Wire.TRIGGER_SIZE * n
    ensures |Net.OnWire(bytes)| > Net.MAX_FRAME == 1500 <==> n > 120
    ensures Net.OnWire(bytes) != bytes <==> n == 0
  {
  }

  /** What reaches `pfring_send`: frames of 60 to 1500 bytes that are a queued frame
      followed by zeros only. MRP frames are never padded, the 42-byte ARP frame
      always; and with at most 120 triggers per MRP nothing is refused. */
  lemma WireFrames(c: Config, run: seq<State>, i: nat, w: nat)
    requires WellFormed(c) && IsRun(c, run) && i < |run| && w < |run[i].net.wire|
    ensures var n, b := run[i].net, run[i].net.wire[w].bytes;
            && run[i].net.wire[w].ticket < |n.dequeued|
            && 60 <= |b| <= 1500
            && var item := n.dequeued[run[i].net.wire[w].ticket];
               && item.bytes <= b && (forall k :: |item.bytes| <= k < |b| ==> b[k] == 0)
               && (item.buffer.MrpBuffer? ==> b == item.bytes)
               && (item.buffer.ArpBuffer? ==> item.bytes == c.arp && |b| == 60)
  {
    hide L1.Inv, OrderInv, Items, MrpItems, Net.SettledInv, Net.TicketInv, Net.FreedInv, Net.CountInv, Net.BuffersInv;
    RunInv(c, run, i);
    var s := run[i];
    var t := s.net.wire[w].ticket;
    assert s.net.enqueued[t] == s.net.dequeued[t];
    FrameSizes(c, s);
  }

  lemma FrameSizes(c: Config, s: State)
    requires WellFormed(c) && L1.Inv(c.l1, s.l1)
    ensures L1.FrameSizeInv(c.l1.max, |c.l1.templates|, s.l1.hist.frames)
  {
  }

  lemma NothingRefused(c: Config, run: seq<State>, i: nat)
    requires WellFormed(c) && IsRun(c, run) && i < |run| && c.l1.max <= 120
    ensures run[i].net.refused == {}
  {
    hide L1.Inv, OrderInv, Items, MrpItems, Net.TicketInv, Net.FreedInv, Net.CountInv, Net.BuffersInv, Net.InWire, Net.SomeoneHanded;
    RunInv(c, run, i);
    var s := run[i];
    FrameSizes(c, s);
    forall t: nat | t < |s.net.dequeued| ensures |s.net.dequeued[t].bytes| <= Net.MAX_FRAME {
      assert s.net.enqueued[t] == s.net.dequeued[t];
    }
  }
}
