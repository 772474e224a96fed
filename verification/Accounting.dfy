/** The balance of the whole system over every schedule: calls against what stations
    take in, rounds of the ARP thread against announcements on the wire. */
module Accounting {
  import opened Wrappers
  import opened Bytes
  import Wire
  import EthernetUtils
  import L1 = L1Pipeline
  import Intake = L1Intake
  import Guarantees = L1Guarantees
  import Flush = L1Flush
  import Net = SendSide
  import opened NetworkingSystem
  import opened SystemDraining
  import opened Delivery

  // ----- schedules are runs -----

  /** The states along a schedule. */
  function Trace(c: Config, s: State, path: seq<Step>): (run: seq<State>)
    requires WellFormed(c) && Executable(c, s, path)
    ensures |run| == |path| + 1 && run[0] == s && run[|path|] == Execute(c, s, path)
    decreases |path|
  {
    if path == [] then [s] else [s] + Trace(c, Apply(c, s, path[0]), path[1..])
  }

  lemma {:induction false} TraceSteps(c: Config, s: State, path: seq<Step>, i: nat)
    requires WellFormed(c) && Executable(c, s, path) && i < |path|
    ensures Next(c, Trace(c, s, path)[i], Trace(c, s, path)[i + 1])
    decreases |path|
  {
    hide WellFormed, Apply, Enabled;
    var t := Apply(c, s, path[0]);
    if i == 0 {
      assert Next(c, s, t);
    } else {
      TraceSteps(c, t, path[1..], i - 1);
    }
  }

  lemma TraceIsRun(c: Config, s: State, path: seq<Step>)
    requires WellFormed(c) && Init(s) && Executable(c, s, path)
    ensures IsRun(c, Trace(c, s, path))
  {
    hide WellFormed, Executable, Execute, Init, Next;
    forall i | 0 <= i < |path| ensures Next(c, Trace(c, s, path)[i], Trace(c, s, path)[i + 1]) {
      TraceSteps(c, s, path, i);
    }
  }

  // ----- the ARP thread -----

  /** How many rounds the ARP thread makes in a schedule. */
  function ArpRounds(path: seq<Step>): nat {
    if path == [] then 0 else (if path[0].PushArp? then 1 else 0) + ArpRounds(path[1..])
  }

  /** A round is possible whenever there is room, and appends the announcement, in the
      one buffer that nobody frees. */
  lemma ArpRound(c: Config, s: State)
    requires WellFormed(c)
    ensures Enabled(s, PushArp) <==> |s.net.queue| < 1000
    ensures Enabled(s, PushArp) ==>
              var t := Apply(c, s, PushArp);
              && t.l1 == s.l1
              && t.net.enqueued == s.net.enqueued + [Net.Container(Net.ArpBuffer, c.arp, false)]
              && t.net.queue == s.net.queue + [Net.Container(Net.ArpBuffer, c.arp, false)]
              && ArpItems(t.net.enqueued) == ArpItems(s.net.enqueued) + [Net.Container(Net.ArpBuffer, c.arp, false)]
  {
    hide EthernetUtils.ArpFrame;
    ArpItemsAppended(s.net.enqueued, ArpItem(c));
  }

  lemma ArpItemsAppended(items: seq<Net.Container>, x: Net.Container)
    ensures ArpItems(items + [x]) == ArpItems(items) + if x.buffer.ArpBuffer? then [x] else []
  {
    assert (items + [x])[..|items|] == items;
  }

  /** Steps of others append no ARP frame. */
  lemma OtherStep(c: Config, s: State, step: Step)
    requires WellFormed(c) && Enabled(s, step) && !step.PushArp?
    ensures ArpItems(Apply(c, s, step).net.enqueued) == ArpItems(s.net.enqueued)
  {
    hide L1.WellFormed, L1.ConsumerStep, EthernetUtils.ArpFrame;
    match step {
      case Local(_) =>
      case PushMrp => ArpItemsAppended(s.net.enqueued, MrpItem(|s.l1.hist.frames|, s.l1.pc.frame));
      case Sender(n) => SenderKeepsEnqueued(s.net, n);
    }
  }

  lemma {:induction false} ArpFramesAlong(c: Config, s: State, path: seq<Step>)
    requires WellFormed(c) && Executable(c, s, path)
    ensures |ArpItems(Execute(c, s, path).net.enqueued)| == |ArpItems(s.net.enqueued)| + ArpRounds(path)
    decreases |path|
  {
    hide WellFormed, Apply, Enabled, ArpItems;
    if path != [] {
      if path[0].PushArp? {
        ArpRound(c, s);
      } else {
        OtherStep(c, s, path[0]);
      }
      ArpFramesAlong(c, Apply(c, s, path[0]), path[1..]);
    }
  }

  /** The announcement as it goes out: 42 bytes and 18 zeros. */
  function PaddedArp(c: Config): seq<byte> {
    c.arp + seq(18, _ => 0)
  }

  lemma ArpOnWire(c: Config)
    requires WellFormed(c)
    ensures Net.OnWire(c.arp) == PaddedArp(c) && |PaddedArp(c)| == 60 && Net16(PaddedArp(c), 12) == 0x0806
    ensures EthernetUtils.DecodeArp(PaddedArp(c)) ==
            Some(EthernetUtils.Arp(c.mac, c.ip, [0, 0, 0, 0, 0, 0], c.ip, 1))
    ensures PaddedArp(c)[..6] == [0, 0, 0, 0, 0, 0] && PaddedArp(c)[6..12] == c.mac
  {
    hide EthernetUtils.ArpFrame, EthernetUtils.DecodeArp, Net16;
    EthernetUtils.ArpRoundTrip(Announcement(c), seq(18, _ => 0));
    EthernetUtils.ArpFields(Announcement(c), seq(18, _ => 0));
    assert EthernetUtils.Zeros(6) == [0, 0, 0, 0, 0, 0];
  }

  lemma MrpFrameType(t: seq<byte>, hs: seq<Wire.TriggerRawHdr>)
    requires Wire.ValidTemplate(t)
    ensures |t| == Wire.FRAME_HDR
    ensures Net16(Wire.MrpFrame(t, hs), 12) == 0x0800
  {
    hide Wire.MrpFrame, Wire.Payload, Trunc16;
    Wire.FrameFields(t, hs);
  }

  lemma FrameTypes(c: L1.Config, s: L1.State)
    requires L1.WellFormed(c) && L1.Inv(c, s)
    ensures forall i :: 0 <= i < |s.hist.frames| ==>
              |s.hist.frames[i].bytes| >= 60 && Net16(s.hist.frames[i].bytes, 12) == 0x0800
  {
    hide Wire.MrpFrame, Wire.ValidTemplate, L1.FramesFor, L1.Raw, Reversed, L1.SentTo, Net16,
         L1.QueueInv, L1.AllocInv, L1.SizeInv, L1.OrderInv, L1.OwnershipInv, L1.FlushInv, L1.RetryInv, L1.PackedInv,
         L1.CounterInv, L1.TallyInv, L1.MrpSizeInv;
    var frames := s.hist.frames;
    forall i | 0 <= i < |frames| ensures |frames[i].bytes| >= 60 && Net16(frames[i].bytes, 12) == 0x0800 {
      FrameMember(frames, i);
      var e := frames[i].endpoint;
      var t := c.templates[e];
      assert Wire.ValidTemplate(t);
      L1.TemplateSize(t);
      var ms := L1.SentTo(s.pc, s.hist.mrps, |c.templates|, e);
      var k :| 0 <= k < |ms| && frames[i].bytes == L1.FramesOf(t, ms)[k];
      MrpFrameType(t, L1.Raw(Reversed(ms[k])));
    }
  }

  /** Among padded frames, the announcements are the ARP containers. */
  lemma {:induction false} AnnouncementsAmong(c: Config, items: seq<Net.Container>)
    requires WellFormed(c)
    requires forall i :: 0 <= i < |items| ==>
               if items[i].buffer.MrpBuffer? then |items[i].bytes| >= 60 && Net16(items[i].bytes, 12) == 0x0800
               else items[i] == ArpItem(c)
    ensures multiset(Padded(items))[PaddedArp(c)] == |ArpItems(items)|
  {
    hide WellFormed, Net.OnWire, Net16, PaddedArp;
    if |items| != 0 {
      var n := |items| - 1;
      AnnouncementsAmong(c, items[..n]);
      ArpOnWire(c);
      assert Padded(items) == Padded(items[..n]) + [Net.OnWire(items[n].bytes)];
      PaddedLong(items[n].bytes);
    }
  }

  lemma PaddedLong(b: seq<byte>)
    ensures |b| >= 60 ==> Net.OnWire(b) == b
  {
  }

  /** Over every schedule from the start: as many ARP frames are queued as the thread
      made rounds. At rest, with MAX <= 120, so many padded copies are on the wire, and a
      receiver reads each as the requester announcing its own address. */
  lemma AnnouncementsOnWire(c: Config, s: State, path: seq<Step>)
    requires WellFormed(c) && Init(s) && Executable(c, s, path)
    ensures |ArpItems(Execute(c, s, path).net.enqueued)| == ArpRounds(path)
    ensures c.l1.max <= 120 && Quiescent(Execute(c, s, path).net) ==>
              multiset(Net.BytesOf(Execute(c, s, path).net.wire))[c.arp + seq(18, _ => 0)] == ArpRounds(path)
  {
    hide WellFormed, Executable, Execute, Padded, Net.BytesOf, Inv, Quiescent, ArpItems;
    ArpFramesAlong(c, s, path);
    NoArpYet(s);
    var t := Execute(c, s, path);
    if c.l1.max <= 120 && Quiescent(t.net) {
      TraceIsRun(c, s, path);
      EveryFrameExactlyOnce(c, Trace(c, s, path), |path|);
      RunInv(c, Trace(c, s, path), |path|);
      QueuedTypes(c, t);
      AnnouncementsAmong(c, t.net.enqueued);
    }
  }

  lemma NoArpYet(s: State)
    requires Init(s)
    ensures ArpItems(s.net.enqueued) == []
  {
  }

  lemma QueuedTypes(c: Config, s: State)
    requires WellFormed(c) && Inv(c, s)
    ensures forall i :: 0 <= i < |s.net.enqueued| ==>
              var x := s.net.enqueued[i];
              if x.buffer.MrpBuffer? then |x.bytes| >= 60 && Net16(x.bytes, 12) == 0x0800 else x == ArpItem(c)
  {
    hide L1.Inv, Net.Inv, OrderInv, Net16, L1.WellFormed;
    FrameTypes(c.l1, s.l1);
  }

  // ----- calls -----

  /** The calls in a schedule that find the flag down, in order. */
  function Accepted(c: Config, s: State, path: seq<Step>): seq<Intake.Call>
    requires WellFormed(c) && Executable(c, s, path)
    decreases |path|
  {
    if path == [] then []
    else (if path[0].Local? then Intake.AcceptedBy(s.l1, path[0].l1) else [])
         + Accepted(c, Apply(c, s, path[0]), path[1..])
  }

  lemma CountStep(c: Config, s: State, step: Step, call: Intake.Call)
    requires WellFormed(c) && Enabled(s, step)
    ensures Intake.Count(Apply(c, s, step).l1, call) ==
            Intake.Count(s.l1, call) + if step.Local? then multiset(Intake.AcceptedBy(s.l1, step.l1))[call] else 0
  {
    hide L1.WellFormed, L1.Apply, L1.Enabled, Net.Apply, Intake.Count;
    match step {
      case Local(l) => Intake.CountStep(c.l1, s.l1, l, call);
      case PushMrp => ConsumeAccepts(c, s, call);
      case PushArp =>
      case Sender(_) =>
    }
  }

  lemma ConsumeAccepts(c: Config, s: State, call: Intake.Call)
    requires WellFormed(c)
    ensures L1.Enabled(s.l1, L1.Consume)
    ensures Intake.Count(L1.Apply(c.l1, s.l1, L1.Consume), call) == Intake.Count(s.l1, call)
  {
    hide L1.WellFormed, L1.ConsumerStep, Intake.Count;
    Intake.CountStep(c.l1, s.l1, L1.Consume, call);
  }

  lemma {:induction false} CountAlong(c: Config, s: State, path: seq<Step>, call: Intake.Call)
    requires WellFormed(c) && Executable(c, s, path)
    ensures Intake.Count(Execute(c, s, path).l1, call) ==
            Intake.Count(s.l1, call) + multiset(Accepted(c, s, path))[call]
    decreases |path|
  {
    hide WellFormed, Apply, Enabled, Intake.Count, Intake.AcceptedBy;
    if path != [] {
      CountStep(c, s, path[0], call);
      CountAlong(c, Apply(c, s, path[0]), path[1..], call);
    }
  }

  lemma NoCallsYet(s: State, call: Intake.Call)
    requires Init(s)
    ensures Intake.Count(s.l1, call) == 0
  {
    assert Intake.Callers(map[], call) == {};
    assert Intake.CallsOf([]) == [];
  }

  lemma {:induction false} PoppedCalls(ps: seq<L1.Pop>, call: Intake.Call)
    ensures multiset(Intake.CallsOf(L1.Popped(ps)))[call] ==
            multiset(Intake.CallsOf(L1.Kept(ps)))[call] + multiset(Intake.CallsOf(L1.Dropped(ps)))[call]
  {
    hide Intake.CallsOf;
    if |ps| == 0 {
      assert Intake.CallsOf([]) == [];
    } else {
      var before, h := ps[..|ps| - 1], ps[|ps| - 1].header;
      PoppedCalls(before, call);
      Intake.CallsAppended(L1.Popped(before), h, call);
      Intake.CallsAppended(L1.Kept(before), h, call);
      Intake.CallsAppended(L1.Dropped(before), h, call);
      assert L1.Kept(before) + [] == L1.Kept(before) && L1.Dropped(before) + [] == L1.Dropped(before);
    }
  }

  lemma CallsConcat(a: seq<L1.Header>, b: seq<L1.Header>)
    ensures Intake.CallsOf(a + b) == Intake.CallsOf(a) + Intake.CallsOf(b)
  {
  }

  /** The requests that the calls ask for, with 24 bits of the event number. */
  function RequestsOf(calls: seq<Intake.Call>): (rs: seq<Wire.Request>)
    ensures |rs| == |calls|
  {
    seq(|calls|, i requires 0 <= i < |calls| => Wire.RequestOf(calls[i].event, calls[i].zSuppressed))
  }

  lemma RequestedIsCalled(hs: seq<L1.Header>)
    ensures Guarantees.Requested(hs) == RequestsOf(Intake.CallsOf(hs))
  {
  }

  lemma RequestsWithoutAt(a: seq<Intake.Call>, i: nat)
    requires i < |a|
    ensures RequestsOf(a[..i] + a[i + 1..]) == RequestsOf(a)[..i] + RequestsOf(a)[i + 1..]
    ensures RequestsOf(a)[i] == Wire.RequestOf(a[i].event, a[i].zSuppressed)
  {
  }

  lemma {:induction false} RequestsPermutation(a: seq<Intake.Call>, b: seq<Intake.Call>)
    requires multiset(a) == multiset(b)
    ensures multiset(RequestsOf(a)) == multiset(RequestsOf(b))
    decreases |a|
  {
    hide RequestsOf;
    if |a| == 0 {
      assert |multiset(b)| == 0;
      assert a == b;
    } else {
      var n, x := |a| - 1, a[|a| - 1];
      assert x in multiset(b);
      var i :| 0 <= i < |b| && b[i] == x;
      WithoutAt(a, n);
      WithoutAt(b, i);
      RequestsPermutation(a[..n] + a[n + 1..], b[..i] + b[i + 1..]);
      RequestsWithoutAt(a, n);
      RequestsWithoutAt(b, i);
      WithoutAt(RequestsOf(a), n);
      WithoutAt(RequestsOf(b), i);
    }
  }

  /** Over every schedule from the start: each call that found the flag down is kept,
      dropped by a flush, still queued, or still with its producer, and these add up. */
  lemma CallsAccountedFor(c: Config, s: State, path: seq<Step>, call: Intake.Call)
    requires WellFormed(c) && Init(s) && Executable(c, s, path)
    ensures var t := Execute(c, s, path).l1;
            multiset(Intake.CallsOf(L1.Kept(t.hist.pops)))[call] + multiset(Intake.CallsOf(L1.Dropped(t.hist.pops)))[call]
            + multiset(Intake.CallsOf(t.queue))[call] + |Intake.Callers(t.producers, call)|
            == multiset(Accepted(c, s, path))[call]
  {
    hide WellFormed, Executable, Execute, Accepted, Intake.CallsOf, Intake.Callers, L1.Popped, L1.Kept, L1.Dropped, Init;
    CountAlong(c, s, path, call);
    NoCallsYet(s, call);
    var t := Execute(c, s, path);
    TraceIsRun(c, s, path);
    RunInv(c, Trace(c, s, path), |path|);
    PushHistory(c, t);
    PoppedCalls(t.l1.hist.pops, call);
    CallsConcat(L1.Popped(t.l1.hist.pops), t.l1.queue);
  }

  lemma PushHistory(c: Config, s: State)
    requires WellFormed(c) && Inv(c, s)
    ensures L1.Popped(s.l1.hist.pops) + s.l1.queue == s.l1.hist.pushed
    ensures !s.l1.hist.sawFlush ==> L1.Dropped(s.l1.hist.pops) == []
  {
    hide Net.Inv, LinkInv, OrderInv, L1.Popped;
  }

  /** From the calls to the wire, for any number of producers and packet handler threads
      and with at most 120 triggers per MRP: when everything has been sent, the queue is
      empty, no call is under way and no flush was noticed, then what a station takes
      in is exactly what the calls that found the flag down asked for, each as often as
      it was asked. */
  lemma StationsReceiveCalls(c: Config, s: State, path: seq<Step>, e: nat)
    requires WellFormed(c) && Init(s) && Executable(c, s, path) && c.l1.max <= 120
    requires e < |c.l1.templates| && OwnAddress(c.l1, e)
    requires var t := Execute(c, s, path);
             && Quiescent(t.net) && t.l1.pc.OuterHead? && t.l1.queue == [] && !t.l1.hist.sawFlush
             && Flush.Active(t.l1.producers) == {}
    ensures |c.l1.templates[e]| == Wire.FRAME_HDR
    ensures multiset(ReceivedAt(Net.BytesOf(Execute(c, s, path).net.wire), AddressOf(c.l1.templates[e]))) ==
            multiset(RequestsOf(Accepted(c, s, path)))
  {
    hide WellFormed, Executable, Execute, Accepted, Intake.CallsOf, Intake.Callers, L1.Kept, L1.Dropped, Init, Inv,
         ReceivedAt, Net.BytesOf, AddressOf, OwnAddress, RequestsOf, Guarantees.Requested, Quiescent;
    var t := Execute(c, s, path);
    var kept := Intake.CallsOf(L1.Kept(t.l1.hist.pops));
    TraceIsRun(c, s, path);
    StationsReceiveKeptTriggers(c, Trace(c, s, path), |path|, e);
    RequestedIsCalled(L1.Kept(t.l1.hist.pops));
    RunInv(c, Trace(c, s, path), |path|);
    PushHistory(c, t);
    NothingElse(t.l1);
    forall call ensures multiset(kept)[call] == multiset(Accepted(c, s, path))[call] {
      CallsAccountedFor(c, s, path, call);
    }
    RequestsPermutation(kept, Accepted(c, s, path));
  }

  lemma NothingElse(s: L1.State)
    requires Flush.Active(s.producers) == {}
    ensures Intake.CallsOf([]) == []
    ensures forall call :: |Intake.Callers(s.producers, call)| == 0
  {
    forall call ensures |Intake.Callers(s.producers, call)| == 0 {
      forall p | p in Intake.Callers(s.producers, call) ensures p in Flush.Active(s.producers) {
      }
      assert Intake.Callers(s.producers, call) == {};
    }
  }
}
