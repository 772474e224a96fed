/** The bounded send queue and the packet handler threads that empty it
    (socket/PFringHandler.cpp, socket/PFring.cpp): pop, count, pad, hand to the
    ring, free. Any number of sender threads, one step per shared access. */
module SendSide {
  import opened Bytes

  const CAPACITY := 1000
  const MIN_FRAME := 60
  const MAX_FRAME := 1500

  /** Which allocation a frame lives in: a fresh one per MRP frame, or the one ARP
      buffer that is queued again and again. */
  datatype Buffer = MrpBuffer(id: nat) | ArpBuffer

  datatype Container = Container(buffer: Buffer, bytes: seq<byte>, ownerMayFree: bool)

  /** A container together with its position in the dequeue order. */
  datatype Job = Job(ticket: nat, item: Container)

  datatype SenderPc =
    | Idle
    | Taken(job: Job)    // popped at line 150
    | Counted(job: Job)  // past line 181
    | Handed(job: Job)   // send_packet has returned

  datatype Transmission = Transmission(ticket: nat, bytes: seq<byte>)

  /** `queue`, `senders` and `framesSent` are the program's; the rest is history. */
  datatype State = State(queue: seq<Container>, senders: map<nat, SenderPc>, framesSent: nat,
                         enqueued: seq<Container>, dequeued: seq<Container>,
                         wire: seq<Transmission>, refused: set<nat>, done: set<nat>, freed: seq<Buffer>)

  datatype Step =
    | Enqueue(item: Container)          // AsyncSendFrame, blocks while the queue is full
    | TryPop(p: nat)
    | CountFrame(p: nat)
    | Ring(p: nat, accepts: bool)       // one round of send_packet; `accepts` is pfring_send's choice
    | Release(p: nat)

  predicate Init(s: State) {
    s == State([], map[], 0, [], [], [], {}, {}, [])
  }

  function SenderAt(senders: map<nat, SenderPc>, p: nat): SenderPc {
    if p in senders then senders[p] else Idle
  }

  predicate Enabled(s: State, step: Step) {
    match step
    case Enqueue(_) => |s.queue| < CAPACITY
    case TryPop(p) => SenderAt(s.senders, p).Idle?
    case CountFrame(p) => SenderAt(s.senders, p).Taken?
    case Ring(p, _) => SenderAt(s.senders, p).Counted?
    case Release(p) => SenderAt(s.senders, p).Handed?
  }

  /** The Ethernet trailer: frames below 60 bytes are completed with zeros. */
  function OnWire(bytes: seq<byte>): (r: seq<byte>)
    ensures |r| >= MIN_FRAME
    ensures bytes <= r && forall k :: |bytes| <= k < |r| ==> r[k] == 0
    ensures |bytes| >= MIN_FRAME ==> r == bytes
  {
    if |bytes| < MIN_FRAME then bytes + seq(MIN_FRAME - |bytes|, _ => 0) else bytes
  }

  function Apply(s: State, step: Step): State
    requires Enabled(s, step)
  {
    match step
    case Enqueue(item) => Put(s, item)
    case TryPop(p) => Take(s, p)
    case CountFrame(p) => Count(s, p, SenderAt(s.senders, p).job)
    case Ring(p, accepts) => Hand(s, p, SenderAt(s.senders, p).job, accepts)
    case Release(p) => Free(s, p, SenderAt(s.senders, p).job)
  }

  function Put(s: State, item: Container): State {
    s.(queue := s.queue + [item], enqueued := s.enqueued + [item])
  }

  function Take(s: State, p: nat): State {
    if s.queue == [] then s
    else s.(queue := s.queue[1..], dequeued := s.dequeued + [s.queue[0]],
            senders := s.senders[p := Taken(Job(|s.dequeued|, s.queue[0]))])
  }

  function Count(s: State, p: nat, job: Job): State {
    s.(framesSent := Wrap64(s.framesSent + 1), senders := s.senders[p := Counted(job)])
  }

  /** Frames above 1500 bytes are refused; others are offered until the ring takes them. */
  function Hand(s: State, p: nat, job: Job, accepts: bool): State {
    var pkt := OnWire(job.item.bytes);
    if |pkt| > MAX_FRAME then
      s.(senders := s.senders[p := Handed(job)], refused := s.refused + {job.ticket})
    else if accepts then
      s.(senders := s.senders[p := Handed(job)], wire := s.wire + [Transmission(job.ticket, pkt)])
    else s
  }

  function Free(s: State, p: nat, job: Job): State {
    s.(senders := s.senders[p := Idle], done := s.done + {job.ticket},
       freed := if job.item.ownerMayFree then s.freed + [job.item.buffer] else s.freed)
  }

  // ----- the invariant -----

  ghost predicate QueueInv(queue: seq<Container>, enqueued: seq<Container>, dequeued: seq<Container>) {
    dequeued + queue == enqueued && |queue| <= CAPACITY
  }

  /** Freeable containers own their buffer: no two share one, and the ARP buffer is
      never freeable. */
  ghost predicate BuffersInv(enqueued: seq<Container>) {
    && (forall i :: 0 <= i < |enqueued| ==> (enqueued[i].ownerMayFree <==> enqueued[i].buffer.MrpBuffer?))
    && (forall i, j :: 0 <= i < j < |enqueued| && enqueued[i].ownerMayFree ==>
          enqueued[i].buffer != enqueued[j].buffer)
  }

  ghost predicate Holds(senders: map<nat, SenderPc>, p: nat, t: nat) {
    p in senders && !senders[p].Idle? && senders[p].job.ticket == t
  }

  ghost predicate HoldsHanded(senders: map<nat, SenderPc>, p: nat, t: nat) {
    Holds(senders, p, t) && senders[p].Handed?
  }

  ghost predicate SomeoneHolds(senders: map<nat, SenderPc>, t: nat) {
    exists p: nat :: Holds(senders, p, t)
  }

  ghost predicate SomeoneHanded(senders: map<nat, SenderPc>, t: nat) {
    exists p: nat :: HoldsHanded(senders, p, t)
  }

  /** Every dequeued container is done or with exactly one sender. */
  ghost predicate TicketInv(senders: map<nat, SenderPc>, dequeued: seq<Container>, done: set<nat>) {
    && (forall p <- senders :: !senders[p].Idle? ==>
          && senders[p].job.ticket < |dequeued|
          && senders[p].job.item == dequeued[senders[p].job.ticket]
          && senders[p].job.ticket !in done)
    && (forall p, q | p in senders && q in senders && p != q ::
          !senders[p].Idle? && !senders[q].Idle? ==> senders[p].job.ticket != senders[q].job.ticket)
    && (forall t <- done :: t < |dequeued|)
    && (forall t: nat :: t < |dequeued| && t !in done ==> SomeoneHolds(senders, t))
  }

  ghost predicate InWire(wire: seq<Transmission>, t: nat) {
    exists i :: 0 <= i < |wire| && wire[i].ticket == t
  }

  /** What reached the ring: padded dequeued frames, each at most once. */
  ghost predicate WireInv(wire: seq<Transmission>, dequeued: seq<Container>) {
    && (forall i :: 0 <= i < |wire| ==>
          && wire[i].ticket < |dequeued|
          && wire[i].bytes == OnWire(dequeued[wire[i].ticket].bytes)
          && MIN_FRAME <= |wire[i].bytes| <= MAX_FRAME)
    && (forall i, j :: 0 <= i < j < |wire| ==> wire[i].ticket != wire[j].ticket)
  }

  /** A frame is settled, by transmission or refusal, exactly when its sender is past
      `send_packet`; only frames above the limit are refused. */
  ghost predicate SettledInv(senders: map<nat, SenderPc>, done: set<nat>, wire: seq<Transmission>,
                       refused: set<nat>, dequeued: seq<Container>) {
    && (forall t: nat :: t in done || SomeoneHanded(senders, t) <==> InWire(wire, t) || t in refused)
    && (forall t <- refused :: t < |dequeued| && |dequeued[t].bytes| > MAX_FRAME)
  }

  ghost predicate FreedBy(done: set<nat>, dequeued: seq<Container>, b: Buffer) {
    exists t :: t in done && t < |dequeued| && dequeued[t].ownerMayFree && dequeued[t].buffer == b
  }

  /** Freed buffers are those of the finished freeable jobs, once each. */
  ghost predicate FreedInv(freed: seq<Buffer>, done: set<nat>, dequeued: seq<Container>) {
    && (forall t <- done :: t < |dequeued| && (dequeued[t].ownerMayFree ==> dequeued[t].buffer in freed))
    && (forall b <- freed :: FreedBy(done, dequeued, b))
    && (forall i, j :: 0 <= i < j < |freed| ==> freed[i] != freed[j])
  }

  function Uncounted(senders: map<nat, SenderPc>): set<nat> {
    set p | p in senders && senders[p].Taken?
  }

  ghost predicate CountInv(framesSent: nat, dequeued: nat, senders: map<nat, SenderPc>) {
    |Uncounted(senders)| <= dequeued && framesSent == Wrap64(dequeued - |Uncounted(senders)|)
  }

  ghost predicate Inv(s: State) {
    && QueueInv(s.queue, s.enqueued, s.dequeued)
    && BuffersInv(s.enqueued)
    && TicketInv(s.senders, s.dequeued, s.done)
    && WireInv(s.wire, s.dequeued)
    && SettledInv(s.senders, s.done, s.wire, s.refused, s.dequeued)
    && FreedInv(s.freed, s.done, s.dequeued)
    && CountInv(s.framesSent, |s.dequeued|, s.senders)
  }

  /** What AsyncSendFrame's callers pass: MRP frames in fresh buffers, or the ARP frame. */
  ghost predicate Admissible(enqueued: seq<Container>, item: Container) {
    && (item.ownerMayFree <==> item.buffer.MrpBuffer?)
    && (item.ownerMayFree ==> forall i :: 0 <= i < |enqueued| ==> enqueued[i].buffer != item.buffer)
  }

  // ----- preservation -----

  lemma PutKeepsInv(s: State, item: Container)
    requires Inv(s) && |s.queue| < CAPACITY && Admissible(s.enqueued, item)
    ensures Inv(Put(s, item))
  {
    hide TicketInv, WireInv, SettledInv, FreedInv, CountInv;
    assert s.dequeued + (s.queue + [item]) == s.enqueued + [item];
  }

  lemma TakeKeepsTickets(senders: map<nat, SenderPc>, dequeued: seq<Container>, done: set<nat>, p: nat, item: Container)
    requires TicketInv(senders, dequeued, done) && SenderAt(senders, p).Idle?
    ensures TicketInv(senders[p := Taken(Job(|dequeued|, item))], dequeued + [item], done)
  {
    var senders' := senders[p := Taken(Job(|dequeued|, item))];
    forall t: nat | t < |dequeued + [item]| && t !in done ensures SomeoneHolds(senders', t) {
      if t == |dequeued| {
        assert Holds(senders', p, t);
      } else {
        assert SomeoneHolds(senders, t);
        var q: nat :| Holds(senders, q, t);
        assert Holds(senders', q, t);
      }
    }
  }

  /** A sender that was not past `send_packet` and still is not leaves the settled set alone. */
  lemma UnsettledMove(senders: map<nat, SenderPc>, p: nat, pc: SenderPc, t: nat)
    requires !SenderAt(senders, p).Handed? && !pc.Handed?
    ensures SomeoneHanded(senders[p := pc], t) <==> SomeoneHanded(senders, t)
  {
    var senders' := senders[p := pc];
    if q: nat :| HoldsHanded(senders, q, t) {
      assert HoldsHanded(senders', q, t);
    }
    if q: nat :| HoldsHanded(senders', q, t) {
      assert HoldsHanded(senders, q, t);
    }
  }

  lemma UnsettledMoveKeepsSettled(s: State, p: nat, pc: SenderPc)
    requires !SenderAt(s.senders, p).Handed? && !pc.Handed?
    requires SettledInv(s.senders, s.done, s.wire, s.refused, s.dequeued)
    ensures SettledInv(s.senders[p := pc], s.done, s.wire, s.refused, s.dequeued)
  {
    hide InWire, SomeoneHanded;
    forall t: nat ensures SomeoneHanded(s.senders[p := pc], t) <==> SomeoneHanded(s.senders, t) {
      UnsettledMove(s.senders, p, pc, t);
    }
  }

  lemma TakeKeepsSettled(s: State, p: nat, item: Container)
    requires SenderAt(s.senders, p).Idle?
    requires SettledInv(s.senders, s.done, s.wire, s.refused, s.dequeued) && WireInv(s.wire, s.dequeued)
    requires FreedInv(s.freed, s.done, s.dequeued)
    ensures SettledInv(s.senders[p := Taken(Job(|s.dequeued|, item))], s.done, s.wire, s.refused, s.dequeued + [item])
    ensures WireInv(s.wire, s.dequeued + [item])
    ensures FreedInv(s.freed, s.done, s.dequeued + [item])
  {
    hide OnWire, InWire, SomeoneHanded;
    UnsettledMoveKeepsSettled(s, p, Taken(Job(|s.dequeued|, item)));
    forall b | b in s.freed ensures FreedBy(s.done, s.dequeued + [item], b) {
      assert FreedBy(s.done, s.dequeued, b);
      var t :| t in s.done && t < |s.dequeued| && s.dequeued[t].ownerMayFree && s.dequeued[t].buffer == b;
      assert (s.dequeued + [item])[t] == s.dequeued[t];
    }
  }

  lemma TakeKeepsCount(senders: map<nat, SenderPc>, framesSent: nat, n: nat, p: nat, job: Job)
    requires CountInv(framesSent, n, senders) && SenderAt(senders, p).Idle?
    ensures CountInv(framesSent, n + 1, senders[p := Taken(job)])
  {
    OneMoreUncounted(senders, p, job);
    hide Wrap64, Uncounted;
  }

  lemma OneMoreUncounted(senders: map<nat, SenderPc>, p: nat, job: Job)
    requires SenderAt(senders, p).Idle?
    ensures |Uncounted(senders[p := Taken(job)])| == |Uncounted(senders)| + 1
  {
    assert Uncounted(senders[p := Taken(job)]) == Uncounted(senders) + {p};
    assert p !in Uncounted(senders);
  }

  lemma TakeKeepsInv(s: State, p: nat)
    requires Inv(s) && SenderAt(s.senders, p).Idle?
    ensures Inv(Take(s, p))
  {
    hide TicketInv, WireInv, SettledInv, FreedInv, CountInv, BuffersInv;
    if s.queue != [] {
      var item := s.queue[0];
      TakeKeepsTickets(s.senders, s.dequeued, s.done, p, item);
      TakeKeepsSettled(s, p, item);
      TakeKeepsCount(s.senders, s.framesSent, |s.dequeued|, p, Job(|s.dequeued|, item));
      assert s.dequeued + [item] + s.queue[1..] == s.dequeued + s.queue;
    }
  }

  /** Moving on with the same job keeps the tickets in order. */
  lemma AdvanceKeepsTickets(senders: map<nat, SenderPc>, dequeued: seq<Container>, done: set<nat>, p: nat, pc: SenderPc)
    requires TicketInv(senders, dequeued, done) && p in senders && !senders[p].Idle?
    requires !pc.Idle? && pc.job == senders[p].job
    ensures TicketInv(senders[p := pc], dequeued, done)
  {
    forall t: nat | t < |dequeued| && t !in done ensures SomeoneHolds(senders[p := pc], t) {
      assert SomeoneHolds(senders, t);
      var q: nat :| Holds(senders, q, t);
      assert Holds(senders[p := pc], q, t);
    }
  }

  lemma CountKeepsCount(senders: map<nat, SenderPc>, framesSent: nat, n: nat, p: nat)
    requires CountInv(framesSent, n, senders) && p in senders && senders[p].Taken?
    ensures CountInv(Wrap64(framesSent + 1), n, senders[p := Counted(senders[p].job)])
  {
    hide Wrap64;
    assert Uncounted(senders) == Uncounted(senders[p := Counted(senders[p].job)]) + {p};
    Wrap64Absorbs(n - |Uncounted(senders)|, 1);
  }

  lemma CountKeepsInv(s: State, p: nat)
    requires Inv(s) && SenderAt(s.senders, p).Taken?
    ensures Inv(Count(s, p, s.senders[p].job))
  {
    hide TicketInv, WireInv, FreedInv, CountInv, BuffersInv, QueueInv, SettledInv;
    AdvanceKeepsTickets(s.senders, s.dequeued, s.done, p, Counted(s.senders[p].job));
    UnsettledMoveKeepsSettled(s, p, Counted(s.senders[p].job));
    CountKeepsCount(s.senders, s.framesSent, |s.dequeued|, p);
  }

  lemma OtherKeepsCount(senders: map<nat, SenderPc>, framesSent: nat, n: nat, p: nat, pc: SenderPc)
    requires CountInv(framesSent, n, senders) && p in senders && !senders[p].Taken? && !pc.Taken?
    ensures CountInv(framesSent, n, senders[p := pc])
  {
    assert Uncounted(senders[p := pc]) == Uncounted(senders);
  }

  /** A job that is being handed over was not settled before. */
  lemma CountedUnsettled(s: State, p: nat)
    requires TicketInv(s.senders, s.dequeued, s.done) && p in s.senders && s.senders[p].Counted?
    requires SettledInv(s.senders, s.done, s.wire, s.refused, s.dequeued)
    ensures var t := s.senders[p].job.ticket;
            !InWire(s.wire, t) && t !in s.refused
  {
    hide InWire;
    assert !SomeoneHanded(s.senders, s.senders[p].job.ticket);
  }

  lemma HandedMove(senders: map<nat, SenderPc>, p: nat, t: nat)
    requires p in senders && senders[p].Counted?
    ensures SomeoneHanded(senders[p := Handed(senders[p].job)], t) <==>
            SomeoneHanded(senders, t) || t == senders[p].job.ticket
  {
    var senders' := senders[p := Handed(senders[p].job)];
    if q: nat :| HoldsHanded(senders, q, t) {
      assert HoldsHanded(senders', q, t);
    }
    if t == senders[p].job.ticket {
      assert HoldsHanded(senders', p, t);
    }
    if q: nat :| HoldsHanded(senders', q, t) {
      assert q == p || HoldsHanded(senders, q, t);
    }
  }

  lemma HandKeepsSettled(s: State, p: nat, wire': seq<Transmission>, refused': set<nat>)
    requires p in s.senders && s.senders[p].Counted?
    requires SettledInv(s.senders, s.done, s.wire, s.refused, s.dequeued)
    requires forall t: nat :: InWire(wire', t) || t in refused' <==>
               InWire(s.wire, t) || t in s.refused || t == s.senders[p].job.ticket
    requires forall t <- refused' :: t < |s.dequeued| && |s.dequeued[t].bytes| > MAX_FRAME
    ensures SettledInv(s.senders[p := Handed(s.senders[p].job)], s.done, wire', refused', s.dequeued)
  {
    hide InWire, SomeoneHanded;
    var senders' := s.senders[p := Handed(s.senders[p].job)];
    forall t: nat
      ensures t in s.done || SomeoneHanded(senders', t) <==> InWire(wire', t) || t in refused'
    {
      HandedMove(s.senders, p, t);
      assert t in s.done || SomeoneHanded(s.senders, t) <==> InWire(s.wire, t) || t in s.refused;
    }
  }

  lemma SentOnce(wire: seq<Transmission>, dequeued: seq<Container>, t: nat)
    requires WireInv(wire, dequeued) && !InWire(wire, t) && t < |dequeued|
    requires |OnWire(dequeued[t].bytes)| <= MAX_FRAME
    ensures WireInv(wire + [Transmission(t, OnWire(dequeued[t].bytes))], dequeued)
    ensures forall u: nat :: InWire(wire + [Transmission(t, OnWire(dequeued[t].bytes))], u) <==> InWire(wire, u) || u == t
  {
    var wire' := wire + [Transmission(t, OnWire(dequeued[t].bytes))];
    forall u: nat ensures InWire(wire', u) <==> InWire(wire, u) || u == t {
      if InWire(wire, u) {
        var i :| 0 <= i < |wire| && wire[i].ticket == u;
        assert wire'[i].ticket == u;
      }
      if u == t {
        assert wire'[|wire|].ticket == u;
      }
    }
  }

  lemma HandKeepsInv(s: State, p: nat, accepts: bool)
    requires Inv(s) && SenderAt(s.senders, p).Counted?
    ensures Inv(Hand(s, p, s.senders[p].job, accepts))
  {
    hide WireInv, FreedInv, CountInv, BuffersInv, QueueInv, SettledInv, InWire, OnWire;
    var job := s.senders[p].job;
    AdvanceKeepsTickets(s.senders, s.dequeued, s.done, p, Handed(job));
    OtherKeepsCount(s.senders, s.framesSent, |s.dequeued|, p, Handed(job));
    CountedUnsettled(s, p);
    hide TicketInv;
    assert job.ticket < |s.dequeued| && job.item == s.dequeued[job.ticket];
    if |OnWire(job.item.bytes)| > MAX_FRAME {
      RefusalsAreLarge(s);
      HandKeepsSettled(s, p, s.wire, s.refused + {job.ticket});
    } else if accepts {
      RefusalsAreLarge(s);
      SentOnce(s.wire, s.dequeued, job.ticket);
      HandKeepsSettled(s, p, s.wire + [Transmission(job.ticket, OnWire(job.item.bytes))], s.refused);
    }
  }

  lemma RefusalsAreLarge(s: State)
    requires SettledInv(s.senders, s.done, s.wire, s.refused, s.dequeued)
    ensures forall t <- s.refused :: t < |s.dequeued| && |s.dequeued[t].bytes| > MAX_FRAME
    ensures forall b: seq<byte> :: |OnWire(b)| > MAX_FRAME ==> |b| > MAX_FRAME
  {
  }

  lemma FreeKeepsTickets(senders: map<nat, SenderPc>, dequeued: seq<Container>, done: set<nat>, p: nat)
    requires TicketInv(senders, dequeued, done) && p in senders && senders[p].Handed?
    ensures TicketInv(senders[p := Idle], dequeued, done + {senders[p].job.ticket})
  {
    var done' := done + {senders[p].job.ticket};
    forall t: nat | t < |dequeued| && t !in done' ensures SomeoneHolds(senders[p := Idle], t) {
      assert SomeoneHolds(senders, t);
      var q: nat :| Holds(senders, q, t);
      assert Holds(senders[p := Idle], q, t);
    }
  }

  lemma ReleasedMove(senders: map<nat, SenderPc>, p: nat, t: nat)
    requires p in senders && senders[p].Handed?
    ensures SomeoneHanded(senders, t) || t == senders[p].job.ticket <==>
            SomeoneHanded(senders[p := Idle], t) || t == senders[p].job.ticket
    ensures t == senders[p].job.ticket ==> SomeoneHanded(senders, t)
  {
    var senders' := senders[p := Idle];
    if q: nat :| HoldsHanded(senders, q, t) {
      assert q == p || HoldsHanded(senders', q, t);
    }
    if t == senders[p].job.ticket {
      assert HoldsHanded(senders, p, t);
    }
    if q: nat :| HoldsHanded(senders', q, t) {
      assert HoldsHanded(senders, q, t);
    }
  }

  lemma FreeKeepsSettled(s: State, p: nat)
    requires p in s.senders && s.senders[p].Handed?
    requires SettledInv(s.senders, s.done, s.wire, s.refused, s.dequeued)
    ensures SettledInv(s.senders[p := Idle], s.done + {s.senders[p].job.ticket}, s.wire, s.refused, s.dequeued)
  {
    hide InWire, SomeoneHanded;
    var senders', done' := s.senders[p := Idle], s.done + {s.senders[p].job.ticket};
    forall t: nat
      ensures t in done' || SomeoneHanded(senders', t) <==> InWire(s.wire, t) || t in s.refused
    {
      ReleasedMove(s.senders, p, t);
      assert t in s.done || SomeoneHanded(s.senders, t) <==> InWire(s.wire, t) || t in s.refused;
    }
  }

  lemma FreeKeepsFreed(freed: seq<Buffer>, done: set<nat>, dequeued: seq<Container>, queue: seq<Container>, t: nat)
    requires FreedInv(freed, done, dequeued) && BuffersInv(dequeued + queue)
    requires t < |dequeued| && t !in done
    ensures FreedInv(if dequeued[t].ownerMayFree then freed + [dequeued[t].buffer] else freed, done + {t}, dequeued)
  {
    var b := dequeued[t].buffer;
    var freed' := if dequeued[t].ownerMayFree then freed + [b] else freed;
    forall u | 0 <= u < |dequeued| && u != t && dequeued[u].ownerMayFree && dequeued[t].ownerMayFree
      ensures dequeued[u].buffer != b
    {
      assert (dequeued + queue)[u] == dequeued[u] && (dequeued + queue)[t] == dequeued[t];
    }
    forall x | x in freed ensures FreedBy(done + {t}, dequeued, x) && (dequeued[t].ownerMayFree ==> x != b) {
      assert FreedBy(done, dequeued, x);
      var u :| u in done && u < |dequeued| && dequeued[u].ownerMayFree && dequeued[u].buffer == x;
      assert u in done + {t};
    }
    if dequeued[t].ownerMayFree {
      assert t in done + {t};
      assert FreedBy(done + {t}, dequeued, b);
    }
  }

  lemma FreeKeepsInv(s: State, p: nat)
    requires Inv(s) && SenderAt(s.senders, p).Handed?
    ensures Inv(Free(s, p, s.senders[p].job))
  {
    hide WireInv, FreedInv, CountInv, BuffersInv, SettledInv;
    var job := s.senders[p].job;
    FreeKeepsTickets(s.senders, s.dequeued, s.done, p);
    assert job.ticket < |s.dequeued| && job.item == s.dequeued[job.ticket] && job.ticket !in s.done;
    hide TicketInv;
    FreeKeepsSettled(s, p);
    FreeKeepsFreed(s.freed, s.done, s.dequeued, s.queue, job.ticket);
    OtherKeepsCount(s.senders, s.framesSent, |s.dequeued|, p, Idle);
  }

  lemma InitInv(s: State)
    requires Init(s)
    ensures Inv(s)
  {
    NothingUncounted();
    NothingSettled();
    hide CountInv, SettledInv, OnWire;
  }

  lemma NothingUncounted()
    ensures CountInv(0, 0, map[])
  {
    assert Uncounted(map[]) == {};
  }

  lemma NothingSettled()
    ensures SettledInv(map[], {}, [], {}, [])
  {
  }

  /** Every step of every sender, and every admissible enqueue, keeps the invariant. */
  lemma InvStep(s: State, step: Step)
    requires Inv(s) && Enabled(s, step)
    requires step.Enqueue? ==> Admissible(s.enqueued, step.item)
    ensures Inv(Apply(s, step))
  {
    hide Inv, Put, Take, Count, Hand, Free;
    match step {
      case Enqueue(item) => PutKeepsInv(s, item);
      case TryPop(p) => TakeKeepsInv(s, p);
      case CountFrame(p) => CountKeepsInv(s, p);
      case Ring(p, accepts) => HandKeepsInv(s, p, accepts);
      case Release(p) => FreeKeepsInv(s, p);
    }
  }

  // ----- one sender at work -----

  /** Sender `p` takes the next frame through all its steps, with a ring that accepts. */
  function SendRound(s: State, p: nat): State
    requires SenderAt(s.senders, p).Idle? && s.queue != []
  {
    var taken := Apply(s, TryPop(p));
    var counted := Apply(taken, CountFrame(p));
    var handed := Apply(counted, Ring(p, true));
    Apply(handed, Release(p))
  }

  function SendRounds(s: State, p: nat, n: nat): (r: State)
    requires SenderAt(s.senders, p).Idle? && n <= |s.queue|
    ensures SenderAt(r.senders, p).Idle?
    decreases n
  {
    if n == 0 then s else SendRounds(SendRound(s, p), p, n - 1)
  }

  /** What an accepting ring is given for a container: its padded frame, if that is
      within the length limit. */
  function Offered(item: Container): seq<seq<byte>> {
    if |OnWire(item.bytes)| <= MAX_FRAME then [OnWire(item.bytes)] else []
  }

  function AllOffered(items: seq<Container>): seq<seq<byte>> {
    if |items| == 0 then [] else Offered(items[0]) + AllOffered(items[1..])
  }

  /** The buffers that are freed for a container. */
  function Freeable(item: Container): seq<Buffer> {
    if item.ownerMayFree then [item.buffer] else []
  }

  function AllFreeable(items: seq<Container>): seq<Buffer> {
    if |items| == 0 then [] else Freeable(items[0]) + AllFreeable(items[1..])
  }

  function BytesOf(wire: seq<Transmission>): (bs: seq<seq<byte>>)
    ensures |bs| == |wire|
  {
    seq(|wire|, i requires 0 <= i < |wire| => wire[i].bytes)
  }

  /** The outcome of a hand-over is the ring's choice: a frame within the limit goes out
      exactly when the ring accepts, and is kept and offered again otherwise; a longer
      one is given up. */
  lemma RingDecides(s: State, p: nat)
    requires SenderAt(s.senders, p).Counted?
    ensures var job, t, u := s.senders[p].job, Apply(s, Ring(p, true)), Apply(s, Ring(p, false));
            if |job.item.bytes| <= 1500
            then u == s && t.wire == s.wire + [Transmission(job.ticket, OnWire(job.item.bytes))]
                 && t.senders == s.senders[p := Handed(job)] && t.refused == s.refused
            else u == t && t.wire == s.wire && t.refused == s.refused + {job.ticket}
                 && t.senders == s.senders[p := Handed(job)]
  {
  }

  /** One round: exactly the oldest frame is sent, counted, and freed or kept. */
  lemma RoundEffect(s: State, p: nat)
    requires SenderAt(s.senders, p).Idle? && s.queue != []
    ensures var r, x := SendRound(s, p), s.queue[0];
            && r.queue == s.queue[1..] && r.dequeued == s.dequeued + [x]
            && BytesOf(r.wire) == BytesOf(s.wire) + Offered(x)
            && r.freed == s.freed + Freeable(x)
            && r.framesSent == Wrap64(s.framesSent + 1)
            && SenderAt(r.senders, p).Idle?
  {
    hide OnWire, Wrap64;
  }

  /** A sender empties a queue of q frames in q rounds: every frame within the limit
      goes out once, padded and in order, each buffer is freed according to its flag,
      and framesSent grows by q, refused frames included. */
  lemma {:induction false} SenderDrains(s: State, p: nat)
    requires SenderAt(s.senders, p).Idle?
    ensures var r := SendRounds(s, p, |s.queue|);
            && r.queue == [] && r.dequeued == s.dequeued + s.queue
            && BytesOf(r.wire) == BytesOf(s.wire) + AllOffered(s.queue)
            && r.freed == s.freed + AllFreeable(s.queue)
            && (s.queue != [] ==> r.framesSent == Wrap64(s.framesSent + |s.queue|))
    decreases |s.queue|
  {
    hide Wrap64, SendRound, Offered, Freeable, BytesOf, SenderAt;
    if s.queue != [] {
      var t, x := SendRound(s, p), s.queue[0];
      RoundEffect(s, p);
      SenderDrains(t, p);
      assert s.dequeued + [x] + s.queue[1..] == s.dequeued + s.queue;
      Counted64(s.framesSent, |s.queue| - 1);
    }
  }

  lemma Counted64(sent: nat, n: nat)
    ensures Wrap64(Wrap64(sent + 1) + n) == Wrap64(sent + (n + 1))
    ensures Wrap64(Wrap64(sent + 1)) == Wrap64(sent + 1)
  {
    Wrap64Absorbs(sent + 1, n);
  }
}
