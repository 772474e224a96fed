/** The L1 request pipeline as a state machine: any number of producers push
    trigger headers into a FIFO, one consumer thread collects them into MRPs and
    hands one frame per endpoint to the send queue, and the end-of-burst flag
    changes at any moment (l1/L1DistributionHandler.cpp). One step is one access
    to shared state or one local action between two such accesses. */
module L1Pipeline {
  import opened Bytes
  import opened Wire

  /** A heap-allocated TRIGGER_RAW_HDR: which allocation it is, and its contents,
      which never change after `generateTriggerHDR`. */
  datatype Header = Header(id: nat, event: Event, zSuppressed: bool)

  /** `max` is MAX_TRIGGERS_PER_L1MRP; the unicast templates come before the multicast ones. */
  datatype Config = Config(max: nat, templates: seq<seq<byte>>)

  predicate WellFormed(c: Config) {
    forall i :: 0 <= i < |c.templates| ==> ValidTemplate(c.templates[i])
  }

  datatype ProducerPc =
    | Outside
    | Checked(event: Event, zSuppressed: bool)  // past the flush check of line 71
    | Holding(header: Header)                   // past the allocation of line 75

  datatype ConsumerPc =
    | OuterHead                 // line 162
    | FillTest                  // 168
    | FlushTest                 // 169, left operand
    | FlushPop                  // 169, right operand
    | FlushDelete(h: Header)    // 171
    | RetryPop                  // 174
    | Append(h: Header)         // 177
    | SendTest                  // 181
    | Pack                      // 231
    | PackDelete(h: Header)     // 238
    | BuildFrame(k: nat)        // 242 and 262
    | PushFrame(k: nat, frame: seq<byte>)  // 257 and 276
    | Count                     // 282 to 285

  /** One successful `try_pop`, at line 169 (dropped) or at line 174. */
  datatype Pop = Pop(header: Header, dropped: bool)

  datatype Frame = Frame(endpoint: nat, bytes: seq<byte>)

  /** What has happened so far. The program does not read it. */
  datatype History = History(pushed: seq<Header>, pops: seq<Pop>, deleted: seq<Header>,
                             mrps: seq<seq<Header>>, frames: seq<Frame>,
                             sawFlush: bool, droppedSinceTest: nat)

  /** `batch` is multicastRequests, `packed` the headers already copied into `buff`. */
  datatype State = State(flush: bool, created: nat, producers: map<nat, ProducerPc>, queue: seq<Header>,
                         pc: ConsumerPc, batch: seq<Header>, packed: seq<Header>,
                         triggersSent: nat, mrpsSent: nat, hist: History)

  datatype Step =
    | SetFlush(on: bool)
    | Enter(p: nat, event: Event, zSuppressed: bool)
    | Allocate(p: nat)
    | Push(p: nat)
    | Consume

  predicate Init(s: State) {
    && s.created == 0 && s.producers == map[] && s.queue == []
    && s.pc == OuterHead && s.batch == [] && s.packed == []
    && s.triggersSent == 0 && s.mrpsSent == 0
    && s.hist == History([], [], [], [], [], false, 0)
  }

  function ProducerAt(s: State, p: nat): ProducerPc {
    if p in s.producers then s.producers[p] else Outside
  }

  predicate Enabled(s: State, step: Step) {
    match step
    case SetFlush(_) => true
    case Enter(p, _, _) => ProducerAt(s, p).Outside?
    case Allocate(p) => ProducerAt(s, p).Checked?
    case Push(p) => ProducerAt(s, p).Holding?
    case Consume => true
  }

  function Apply(c: Config, s: State, step: Step): State
    requires WellFormed(c) && Enabled(s, step)
  {
    match step
    case SetFlush(on) => s.(flush := on)
    case Enter(p, event, z) =>
      if s.flush then s else s.(producers := s.producers[p := Checked(event, z)])
    case Allocate(p) =>
      var pc := ProducerAt(s, p);
      s.(created := s.created + 1,
         producers := s.producers[p := Holding(Header(s.created, pc.event, pc.zSuppressed))])
    case Push(p) =>
      var h := ProducerAt(s, p).header;
      s.(producers := s.producers[p := Outside], queue := s.queue + [h],
         hist := s.hist.(pushed := s.hist.pushed + [h]))
    case Consume => ConsumerStep(c, s)
  }

  function Raw(hs: seq<Header>): (rs: seq<TriggerRawHdr>)
    ensures |rs| == |hs|
  {
    seq(|hs|, i requires 0 <= i < |hs| => GenerateTriggerHdr(hs[i].event, hs[i].zSuppressed))
  }

  function ConsumerStep(c: Config, s: State): State
    requires WellFormed(c)
  {
    match s.pc
    case OuterHead => s.(pc := FillTest)
    case FillTest => TestFill(c, s)
    case FlushTest => TestFlush(s)
    case FlushPop => PopToDrop(s)
    case FlushDelete(h) => DeleteHeader(s, h, FlushTest)
    case RetryPop => PopToKeep(s)
    case Append(h) => AppendToBatch(s, h)
    case SendTest => TestSend(s)
    case Pack => PackNext(c, s)
    case PackDelete(h) => DeleteHeader(s, h, Pack)
    case BuildFrame(k) => BuildNext(c, s, k)
    case PushFrame(k, frame) => Enqueue(s, k, frame)
    case Count => CountMrp(s)
  }

  function TestFill(c: Config, s: State): State {
    if |s.batch| != c.max && s.queue != []
    then s.(pc := FlushTest, hist := s.hist.(droppedSinceTest := 0))
    else s.(pc := SendTest)
  }

  function TestFlush(s: State): State {
    if s.flush then s.(pc := FlushPop, hist := s.hist.(sawFlush := true)) else s.(pc := RetryPop)
  }

  /** `try_pop` in the guard of the flush loop. */
  function PopToDrop(s: State): State {
    if s.queue == [] then s.(pc := RetryPop)
    else s.(pc := FlushDelete(s.queue[0]), queue := s.queue[1..],
            hist := s.hist.(pops := s.hist.pops + [Pop(s.queue[0], true)],
                            droppedSinceTest := s.hist.droppedSinceTest + 1))
  }

  /** `try_pop` in the retry loop: on an empty queue the thread sleeps and tries again. */
  function PopToKeep(s: State): State {
    if s.queue == [] then s
    else s.(pc := Append(s.queue[0]), queue := s.queue[1..],
            hist := s.hist.(pops := s.hist.pops + [Pop(s.queue[0], false)]))
  }

  function DeleteHeader(s: State, h: Header, next: ConsumerPc): State {
    s.(pc := next, hist := s.hist.(deleted := s.hist.deleted + [h]))
  }

  function AppendToBatch(s: State, h: Header): State {
    s.(pc := FillTest, batch := s.batch + [h])
  }

  function TestSend(s: State): State {
    if |s.batch| > 0 then s.(pc := Pack) else s.(pc := OuterHead)
  }

  /** One round of the loop at line 231, up to the `delete`; or its exit. */
  function PackNext(c: Config, s: State): State {
    if |s.batch| != 0 && |s.packed| != c.max then
      var h := s.batch[|s.batch| - 1];
      s.(pc := PackDelete(h), batch := s.batch[..|s.batch| - 1], packed := s.packed + [h])
    else
      s.(pc := BuildFrame(0), hist := s.hist.(mrps := s.hist.mrps + [Reversed(s.packed)]))
  }

  function BuildNext(c: Config, s: State, k: nat): State
    requires WellFormed(c)
  {
    if k < |c.templates| then s.(pc := PushFrame(k, MrpFrame(c.templates[k], Raw(s.packed))))
    else s.(pc := Count)
  }

  function Enqueue(s: State, k: nat, frame: seq<byte>): State {
    s.(pc := BuildFrame(k + 1), hist := s.hist.(frames := s.hist.frames + [Frame(k, frame)]))
  }

  function CountMrp(s: State): State {
    s.(pc := OuterHead, packed := [],
       triggersSent := Wrap64(s.triggersSent + |s.packed|), mrpsSent := Wrap64(s.mrpsSent + 1))
  }

  ghost predicate Next(c: Config, s: State, s': State)
    requires WellFormed(c)
  {
    exists step :: Enabled(s, step) && s' == Apply(c, s, step)
  }

  ghost predicate IsRun(c: Config, run: seq<State>)
    requires WellFormed(c)
  {
    && |run| > 0 && Init(run[0])
    && forall i :: 0 <= i < |run| - 1 ==> Next(c, run[i], run[i + 1])
  }

  // ----- what a consumer step leaves alone -----

  lemma ConsumerLeavesProducers(c: Config, s: State)
    requires WellFormed(c)
    ensures var s' := ConsumerStep(c, s);
            s'.producers == s.producers && s'.flush == s.flush && s'.hist.pushed == s.hist.pushed
  {
    ConsumerLeavesFlag(c, s);
    ConsumerLeavesMap(c, s);
    ConsumerLeavesPushed(c, s);
    hide *;
  }

  lemma ConsumerLeavesFlag(c: Config, s: State)
    requires WellFormed(c)
    ensures ConsumerStep(c, s).flush == s.flush
  {
    hide WellFormed, MrpFrame, Raw, Reversed, Wrap64;
  }

  lemma ConsumerLeavesMap(c: Config, s: State)
    requires WellFormed(c)
    ensures ConsumerStep(c, s).producers == s.producers
  {
    hide WellFormed, MrpFrame, Raw, Reversed, Wrap64;
  }

  lemma ConsumerLeavesPushed(c: Config, s: State)
    requires WellFormed(c)
    ensures ConsumerStep(c, s).hist.pushed == s.hist.pushed
  {
    hide WellFormed, MrpFrame, Raw, Reversed, Wrap64;
  }

  lemma ConsumerFrames(c: Config, s: State)
    requires WellFormed(c)
    ensures s.pc.PushFrame? ==> ConsumerStep(c, s).hist.frames == s.hist.frames + [Frame(s.pc.k, s.pc.frame)]
    ensures !s.pc.PushFrame? ==> ConsumerStep(c, s).hist.frames == s.hist.frames
  {
    hide WellFormed, MrpFrame, Raw, Reversed, Wrap64;
  }

  lemma ConsumerSeals(c: Config, s: State)
    requires WellFormed(c)
    ensures var s' := ConsumerStep(c, s);
            s'.hist.mrps == s.hist.mrps || s'.hist.mrps == s.hist.mrps + [Reversed(s.packed)]
  {
    hide WellFormed, MrpFrame, Raw, Reversed, Wrap64;
  }

  // ----- schedules -----

  /** The steps can be taken one after the other, from `s`. */
  predicate Executable(c: Config, s: State, path: seq<Step>)
    requires WellFormed(c)
    decreases |path|
  {
    path == [] || (Enabled(s, path[0]) && Executable(c, Apply(c, s, path[0]), path[1..]))
  }

  function Execute(c: Config, s: State, path: seq<Step>): State
    requires WellFormed(c) && Executable(c, s, path)
    decreases |path|
  {
    if path == [] then s else Execute(c, Apply(c, s, path[0]), path[1..])
  }

  // ----- views of the history -----

  function Popped(ps: seq<Pop>): seq<Header> {
    if |ps| == 0 then [] else Popped(ps[..|ps| - 1]) + [ps[|ps| - 1].header]
  }

  function Dropped(ps: seq<Pop>): seq<Header> {
    if |ps| == 0 then []
    else Dropped(ps[..|ps| - 1]) + if ps[|ps| - 1].dropped then [ps[|ps| - 1].header] else []
  }

  function Kept(ps: seq<Pop>): seq<Header> {
    if |ps| == 0 then []
    else Kept(ps[..|ps| - 1]) + if ps[|ps| - 1].dropped then [] else [ps[|ps| - 1].header]
  }

  function Flatten<T>(ms: seq<seq<T>>): seq<T> {
    if |ms| == 0 then [] else Flatten(ms[..|ms| - 1]) + ms[|ms| - 1]
  }

  /** The frames enqueued for endpoint `e`, oldest first. */
  function FramesFor(fs: seq<Frame>, e: nat): seq<seq<byte>> {
    if |fs| == 0 then []
    else FramesFor(fs[..|fs| - 1], e) + if fs[|fs| - 1].endpoint == e then [fs[|fs| - 1].bytes] else []
  }

  /** Headers that were popped for keeping and are not yet part of a sealed MRP, oldest first. */
  function Current(pc: ConsumerPc, batch: seq<Header>, packed: seq<Header>): seq<Header> {
    match pc
    case Append(h) => batch + [h]
    case Pack => batch + Reversed(packed)
    case PackDelete(_) => batch + Reversed(packed)
    case _ => batch
  }

  /** The header the consumer holds outside any container. */
  function InHand(pc: ConsumerPc): multiset<Header> {
    match pc
    case FlushDelete(h) => multiset{h}
    case Append(h) => multiset{h}
    case PackDelete(h) => multiset{h}
    case _ => multiset{}
  }

  /** The MRP being distributed is sealed but not complete. */
  predicate Distributing(pc: ConsumerPc) {
    pc.BuildFrame? || pc.PushFrame? || pc.Count?
  }

  /** How many of `n` endpoints already have a frame of the MRP being distributed. */
  function Served(pc: ConsumerPc, n: nat): nat {
    match pc
    case BuildFrame(k) => k
    case PushFrame(k, _) => k
    case _ => n
  }

  function Completed(pc: ConsumerPc, ms: seq<seq<Header>>): seq<seq<Header>> {
    if Distributing(pc) && |ms| > 0 then ms[..|ms| - 1] else ms
  }

  /** The MRPs of which endpoint `e` of `n` has its frame. */
  function SentTo(pc: ConsumerPc, ms: seq<seq<Header>>, n: nat, e: nat): seq<seq<Header>> {
    if e < Served(pc, n) then ms else Completed(pc, ms)
  }

  // ----- the invariant, part by part -----

  /** Popped headers followed by the queue are the push history. */
  ghost predicate QueueInv(ps: seq<Pop>, queue: seq<Header>, pushed: seq<Header>) {
    Popped(ps) + queue == pushed
  }

  /** All headers, pushed or still with a producer, are different allocations. */
  ghost predicate AllocInv(created: nat, producers: map<nat, ProducerPc>, pushed: seq<Header>) {
    && (forall i :: 0 <= i < |pushed| ==> pushed[i].id < created)
    && (forall i, j :: 0 <= i < j < |pushed| ==> pushed[i].id != pushed[j].id)
    && (forall p <- producers :: producers[p].Holding? ==>
          && producers[p].header.id < created
          && (forall i :: 0 <= i < |pushed| ==> pushed[i].id != producers[p].header.id))
    && (forall p, q | p in producers && q in producers && p != q ::
          producers[p].Holding? && producers[q].Holding? ==> producers[p].header.id != producers[q].header.id)
  }

  /** Sizes of the consumer's batch and of the packed prefix at each program point. */
  ghost predicate SizeInv(max: nat, pc: ConsumerPc, batch: nat, packed: nat) {
    match pc
    case OuterHead => batch == 0 && packed == 0
    case FillTest => batch <= max && packed == 0
    case FlushTest => batch < max && packed == 0
    case FlushPop => batch < max && packed == 0
    case FlushDelete(_) => batch < max && packed == 0
    case RetryPop => batch < max && packed == 0
    case Append(_) => batch < max && packed == 0
    case SendTest => batch <= max && packed == 0
    case Pack => 1 <= batch + packed <= max
    case PackDelete(_) => batch + packed <= max && packed > 0
    case _ => batch == 0 && 1 <= packed <= max
  }

  /** Headers kept are in the sealed MRPs or still with the consumer, in push order. */
  ghost predicate OrderInv(ps: seq<Pop>, ms: seq<seq<Header>>, current: seq<Header>) {
    Kept(ps) == Flatten(ms) + current
  }

  /** Every popped header is deleted or live with the consumer, counted with multiplicity. */
  ghost predicate OwnershipInv(deleted: seq<Header>, batch: seq<Header>, hand: multiset<Header>, ps: seq<Pop>) {
    multiset(deleted) + multiset(batch) + hand == multiset(Popped(ps))
  }

  /** When the flush flag was never read as set, nothing was dropped. */
  ghost predicate FlushInv(sawFlush: bool, ps: seq<Pop>, inFlush: bool) {
    !sawFlush ==> Dropped(ps) == [] && !inFlush
  }

  /** After the test of line 168, the queue is empty only if a header was dropped since. */
  ghost predicate RetryInv(pc: ConsumerPc, droppedSinceTest: nat, queue: seq<Header>) {
    && (pc.FlushDelete? ==> droppedSinceTest > 0)
    && (pc.FlushTest? || pc.FlushPop? || pc.RetryPop? ==> droppedSinceTest > 0 || queue != [])
  }

  function FramesOf(t: seq<byte>, ms: seq<seq<Header>>): (fs: seq<seq<byte>>)
    requires |t| == FRAME_HDR
    ensures |fs| == |ms|
  {
    seq(|ms|, i requires 0 <= i < |ms| => MrpFrame(t, Raw(Reversed(ms[i]))))
  }

  /** The frame about to be queued is the next endpoint's frame of the last MRP. */
  ghost predicate PackedInv(c: Config, pc: ConsumerPc, packed: seq<Header>, ms: seq<seq<Header>>)
    requires WellFormed(c)
  {
    && (Distributing(pc) ==>
          |ms| > 0 && ms[|ms| - 1] == Reversed(packed) && Served(pc, |c.templates|) <= |c.templates|)
    && (pc.PushFrame? ==>
          pc.k < |c.templates| && pc.frame == MrpFrame(c.templates[pc.k], Raw(packed)))
  }

  /** Every endpoint has got exactly the frames of the MRPs sealed so far, in order. */
  ghost predicate FrameInv(c: Config, pc: ConsumerPc, ms: seq<seq<Header>>, frames: seq<Frame>)
    requires WellFormed(c)
  {
    forall e :: 0 <= e < |c.templates| ==>
      FramesFor(frames, e) == FramesOf(c.templates[e], SentTo(pc, ms, |c.templates|, e))
  }

  function Product(m: nat, n: nat): nat {
    m * n
  }

  /** Counters against the history, in 64-bit arithmetic. */
  ghost predicate CounterInv(completed: seq<seq<Header>>, triggersSent: nat, mrpsSent: nat) {
    && mrpsSent == Wrap64(|completed|)
    && triggersSent == Wrap64(|Flatten(completed)|)
  }

  ghost predicate TallyInv(endpoints: nat, completed: nat, inProgress: nat, frames: nat) {
    frames == Product(completed, endpoints) + inProgress
  }

  ghost predicate MrpSizeInv(max: nat, ms: seq<seq<Header>>) {
    forall i :: 0 <= i < |ms| ==> 1 <= |ms[i]| <= max
  }

  /** Every queued frame is for one of `n` endpoints and holds 1 to `max` triggers. */
  ghost predicate FrameSizeInv(max: nat, n: nat, frames: seq<Frame>) {
    forall i :: 0 <= i < |frames| ==>
      && frames[i].endpoint < n
      && FRAME_HDR + TRIGGER_SIZE <= |frames[i].bytes| <= FRAME_HDR + TRIGGER_SIZE * max
  }

  ghost predicate Inv(c: Config, s: State)
    requires WellFormed(c)
  {
    var h, n := s.hist, |c.templates|;
    && QueueInv(h.pops, s.queue, h.pushed)
    && AllocInv(s.created, s.producers, h.pushed)
    && SizeInv(c.max, s.pc, |s.batch|, |s.packed|)
    && OrderInv(h.pops, h.mrps, Current(s.pc, s.batch, s.packed))
    && OwnershipInv(h.deleted, s.batch, InHand(s.pc), h.pops)
    && FlushInv(h.sawFlush, h.pops, s.pc.FlushPop? || s.pc.FlushDelete?)
    && RetryInv(s.pc, h.droppedSinceTest, s.queue)
    && PackedInv(c, s.pc, s.packed, h.mrps)
    && FrameInv(c, s.pc, h.mrps, h.frames)
    && CounterInv(Completed(s.pc, h.mrps), s.triggersSent, s.mrpsSent)
    && TallyInv(n, |Completed(s.pc, h.mrps)|, if Distributing(s.pc) then Served(s.pc, n) else 0, |h.frames|)
    && MrpSizeInv(c.max, h.mrps)
    && FrameSizeInv(c.max, n, h.frames)
  }

  // ----- preservation, action by action -----

  lemma Appended(ps: seq<Pop>, p: Pop)
    ensures Popped(ps + [p]) == Popped(ps) + [p.header]
    ensures Kept(ps + [p]) == Kept(ps) + if p.dropped then [] else [p.header]
    ensures Dropped(ps + [p]) == Dropped(ps) + if p.dropped then [p.header] else []
  {
    assert (ps + [p])[..|ps|] == ps;
  }

  lemma FlattenAppended<T>(ms: seq<seq<T>>, m: seq<T>)
    ensures Flatten(ms + [m]) == Flatten(ms) + m
  {
    assert (ms + [m])[..|ms|] == ms;
  }

  lemma FramesAppended(fs: seq<Frame>, f: Frame, e: nat)
    ensures FramesFor(fs + [f], e) == FramesFor(fs, e) + if f.endpoint == e then [f.bytes] else []
  {
    assert (fs + [f])[..|fs|] == fs;
  }

  lemma ReversedAppend<T>(xs: seq<T>, x: T)
    ensures Reversed(xs + [x]) == [x] + Reversed(xs)
  {
  }

  lemma TestsKeepInv(c: Config, s: State)
    requires WellFormed(c) && Inv(c, s)
    ensures s.pc.OuterHead? ==> Inv(c, s.(pc := FillTest))
    ensures s.pc.FillTest? ==> Inv(c, TestFill(c, s))
    ensures s.pc.FlushTest? ==> Inv(c, TestFlush(s))
  {
    hide WellFormed, QueueInv, AllocInv, OrderInv, OwnershipInv, CounterInv, TallyInv, MrpSizeInv, FrameSizeInv, Dropped, FramesFor, FramesOf;
  }

  lemma TestSendKeepsInv(c: Config, s: State)
    requires WellFormed(c) && Inv(c, s) && s.pc.SendTest?
    ensures Inv(c, TestSend(s))
  {
    hide WellFormed, QueueInv, AllocInv, OrderInv, OwnershipInv, CounterInv, TallyInv, MrpSizeInv, FrameSizeInv, FlushInv, FramesFor, FramesOf;
    assert s.batch + Reversed(s.packed) == s.batch;
  }

  lemma PopKeepsQueue(ps: seq<Pop>, queue: seq<Header>, pushed: seq<Header>, dropped: bool)
    requires QueueInv(ps, queue, pushed) && |queue| > 0
    ensures QueueInv(ps + [Pop(queue[0], dropped)], queue[1..], pushed)
  {
    Appended(ps, Pop(queue[0], dropped));
    assert queue == [queue[0]] + queue[1..];
  }

  lemma PopKeepsOwnership(d: seq<Header>, b: seq<Header>, ps: seq<Pop>, h: Header, dropped: bool)
    requires OwnershipInv(d, b, multiset{}, ps)
    ensures OwnershipInv(d, b, multiset{h}, ps + [Pop(h, dropped)])
  {
    Appended(ps, Pop(h, dropped));
    assert multiset(Popped(ps) + [h]) == multiset(Popped(ps)) + multiset{h};
  }

  lemma PopKeepsOrder(ps: seq<Pop>, ms: seq<seq<Header>>, batch: seq<Header>, h: Header, dropped: bool)
    requires OrderInv(ps, ms, batch)
    ensures OrderInv(ps + [Pop(h, dropped)], ms, batch + if dropped then [] else [h])
  {
    Appended(ps, Pop(h, dropped));
  }

  lemma DropKeepsInv(c: Config, s: State)
    requires WellFormed(c) && Inv(c, s) && s.pc.FlushPop?
    ensures Inv(c, PopToDrop(s))
  {
    hide WellFormed, QueueInv, AllocInv, OrderInv, OwnershipInv, CounterInv, TallyInv, MrpSizeInv, FrameSizeInv, FrameInv,
         Dropped, Popped, Kept, MrpFrame, Raw, Reversed, Flatten;
    if s.queue != [] {
      var ps, h := s.hist.pops, s.queue[0];
      PopKeepsQueue(ps, s.queue, s.hist.pushed, true);
      PopKeepsOwnership(s.hist.deleted, s.batch, ps, h, true);
      PopKeepsOrder(ps, s.hist.mrps, s.batch, h, true);
      assert s.batch + [] == s.batch;
      SentToIdle(c, s.pc, FlushDelete(h), s.hist.mrps, s.hist.frames);
    } else {
      SentToIdle(c, s.pc, RetryPop, s.hist.mrps, s.hist.frames);
    }
  }

  /** Outside the distribution phase the frames do not depend on the program point. */
  lemma SentToIdle(c: Config, pc: ConsumerPc, pc': ConsumerPc, ms: seq<seq<Header>>, frames: seq<Frame>)
    requires WellFormed(c) && !Distributing(pc) && !Distributing(pc')
    requires FrameInv(c, pc, ms, frames)
    ensures FrameInv(c, pc', ms, frames)
  {
    hide WellFormed, FramesFor, FramesOf;
  }

  lemma KeepKeepsInv(c: Config, s: State)
    requires WellFormed(c) && Inv(c, s) && s.pc.RetryPop?
    ensures Inv(c, PopToKeep(s))
  {
    hide WellFormed, QueueInv, AllocInv, OrderInv, OwnershipInv, CounterInv, TallyInv, MrpSizeInv, FrameSizeInv, FrameInv,
         Dropped, Popped, Kept, MrpFrame, Raw, Reversed, Flatten;
    if s.queue != [] {
      var ps, h := s.hist.pops, s.queue[0];
      PopKeepsQueue(ps, s.queue, s.hist.pushed, false);
      PopKeepsOwnership(s.hist.deleted, s.batch, ps, h, false);
      PopKeepsOrder(ps, s.hist.mrps, s.batch, h, false);
      Appended(ps, Pop(h, false));
      SentToIdle(c, s.pc, Append(h), s.hist.mrps, s.hist.frames);
    }
  }

  lemma MoveKeepsOwnership(d: seq<Header>, b: seq<Header>, h: Header, ps: seq<Pop>)
    requires OwnershipInv(d, b, multiset{h}, ps)
    ensures OwnershipInv(d + [h], b, multiset{}, ps)
    ensures OwnershipInv(d, b + [h], multiset{}, ps)
  {
    hide Popped;
  }

  lemma DeleteKeepsInv(c: Config, s: State, h: Header)
    requires WellFormed(c) && Inv(c, s)
    ensures s.pc == FlushDelete(h) ==> Inv(c, DeleteHeader(s, h, FlushTest))
    ensures s.pc == PackDelete(h) ==> Inv(c, DeleteHeader(s, h, Pack))
  {
    hide WellFormed, QueueInv, AllocInv, OrderInv, OwnershipInv, CounterInv, TallyInv, MrpSizeInv, FrameSizeInv, Dropped, FramesFor, FramesOf;
    if s.pc == FlushDelete(h) || s.pc == PackDelete(h) {
      MoveKeepsOwnership(s.hist.deleted, s.batch, h, s.hist.pops);
    }
  }

  lemma AppendKeepsInv(c: Config, s: State)
    requires WellFormed(c) && Inv(c, s) && s.pc.Append?
    ensures Inv(c, AppendToBatch(s, s.pc.h))
  {
    hide WellFormed, QueueInv, AllocInv, OrderInv, OwnershipInv, CounterInv, TallyInv, MrpSizeInv, FrameSizeInv, FlushInv, FramesFor, FramesOf;
    MoveKeepsOwnership(s.hist.deleted, s.batch, s.pc.h, s.hist.pops);
  }

  lemma TakeKeepsOwnership(d: seq<Header>, b: seq<Header>, ps: seq<Pop>)
    requires OwnershipInv(d, b, multiset{}, ps) && |b| > 0
    ensures OwnershipInv(d, b[..|b| - 1], multiset{b[|b| - 1]}, ps)
  {
    hide Popped;
    assert b == b[..|b| - 1] + [b[|b| - 1]];
  }

  lemma TakeKeepsCurrent(batch: seq<Header>, packed: seq<Header>)
    requires |batch| > 0
    ensures batch[..|batch| - 1] + Reversed(packed + [batch[|batch| - 1]]) == batch + Reversed(packed)
  {
    ReversedAppend(packed, batch[|batch| - 1]);
  }

  lemma TakeKeepsInv(c: Config, s: State)
    requires WellFormed(c) && Inv(c, s) && s.pc.Pack? && |s.batch| != 0
    ensures Inv(c, PackNext(c, s))
  {
    hide WellFormed, QueueInv, AllocInv, OrderInv, OwnershipInv, CounterInv, TallyInv, MrpSizeInv, FrameSizeInv, FlushInv, FramesFor, FramesOf, Reversed;
    TakeKeepsOwnership(s.hist.deleted, s.batch, s.hist.pops);
    TakeKeepsCurrent(s.batch, s.packed);
  }

  lemma SealKeepsFrames(c: Config, pc: ConsumerPc, ms: seq<seq<Header>>, m: seq<Header>, frames: seq<Frame>)
    requires WellFormed(c) && pc.Pack? && FrameInv(c, pc, ms, frames)
    ensures FrameInv(c, BuildFrame(0), ms + [m], frames)
  {
    hide WellFormed, FramesFor, FramesOf;
    assert Completed(BuildFrame(0), ms + [m]) == ms;
  }

  lemma SealKeepsOrder(ps: seq<Pop>, ms: seq<seq<Header>>, m: seq<Header>)
    requires OrderInv(ps, ms, [] + m)
    ensures OrderInv(ps, ms + [m], [])
  {
    FlattenAppended(ms, m);
  }

  lemma SealKeepsInv(c: Config, s: State)
    requires WellFormed(c) && Inv(c, s) && s.pc.Pack? && |s.batch| == 0
    ensures Inv(c, PackNext(c, s))
  {
    hide WellFormed, QueueInv, AllocInv, OrderInv, OwnershipInv, CounterInv, TallyInv, FrameSizeInv, FlushInv, FrameInv, Reversed, MrpFrame, Raw;
    var ms, m := s.hist.mrps, Reversed(s.packed);
    SealKeepsOrder(s.hist.pops, ms, m);
    SealKeepsFrames(c, s.pc, ms, m, s.hist.frames);
    assert Completed(BuildFrame(0), ms + [m]) == ms;
  }

  lemma BuildKeepsInv(c: Config, s: State)
    requires WellFormed(c) && Inv(c, s) && s.pc.BuildFrame?
    ensures Inv(c, BuildNext(c, s, s.pc.k))
  {
    hide ValidTemplate, QueueInv, AllocInv, OrderInv, OwnershipInv, CounterInv, TallyInv, MrpSizeInv, FrameSizeInv, FlushInv, FramesFor, FramesOf, MrpFrame, Raw, Reversed;
  }

  lemma EnqueueKeepsFrames(c: Config, pc: ConsumerPc, packed: seq<Header>, ms: seq<seq<Header>>, frames: seq<Frame>)
    requires WellFormed(c) && pc.PushFrame? && PackedInv(c, pc, packed, ms) && FrameInv(c, pc, ms, frames)
    ensures FrameInv(c, BuildFrame(pc.k + 1), ms, frames + [Frame(pc.k, pc.frame)])
  {
    hide ValidTemplate, FramesFor, FramesOf, MrpFrame, Raw, Reversed;
    var n, frames' := |c.templates|, frames + [Frame(pc.k, pc.frame)];
    forall e | 0 <= e < n
      ensures |c.templates[e]| == FRAME_HDR
      ensures FramesFor(frames', e) == FramesOf(c.templates[e], SentTo(BuildFrame(pc.k + 1), ms, n, e))
    {
      assert ValidTemplate(c.templates[e]);
      TemplateSize(c.templates[e]);
      FramesAppended(frames, Frame(pc.k, pc.frame), e);
      if e == pc.k {
        FramesOfAppended(c.templates[e], ms, packed);
      }
    }
  }

  lemma TemplateSize(t: seq<byte>)
    requires ValidTemplate(t)
    ensures |t| == FRAME_HDR
  {
  }

  lemma FramesOfAppended(t: seq<byte>, ms: seq<seq<Header>>, packed: seq<Header>)
    requires |t| == FRAME_HDR && |ms| > 0 && ms[|ms| - 1] == Reversed(packed)
    ensures FramesOf(t, ms) == FramesOf(t, ms[..|ms| - 1]) + [MrpFrame(t, Raw(packed))]
  {
    hide MrpFrame, Raw;
    assert Reversed(Reversed(packed)) == packed;
  }

  lemma EnqueueKeepsSizes(c: Config, pc: ConsumerPc, packed: seq<Header>, ms: seq<seq<Header>>, frames: seq<Frame>)
    requires WellFormed(c) && pc.PushFrame? && PackedInv(c, pc, packed, ms) && 1 <= |packed| <= c.max
    requires FrameSizeInv(c.max, |c.templates|, frames)
    ensures FrameSizeInv(c.max, |c.templates|, frames + [Frame(pc.k, pc.frame)])
  {
    hide MrpFrame, ValidTemplate, Raw, Reversed;
    TemplateSize(c.templates[pc.k]);
  }

  lemma EnqueueKeepsInv(c: Config, s: State)
    requires WellFormed(c) && Inv(c, s) && s.pc.PushFrame?
    ensures Inv(c, Enqueue(s, s.pc.k, s.pc.frame))
  {
    hide WellFormed, QueueInv, AllocInv, OrderInv, OwnershipInv, CounterInv, MrpSizeInv, FrameSizeInv, FlushInv, FrameInv, Reversed, MrpFrame, Raw, Product;
    EnqueueKeepsFrames(c, s.pc, s.packed, s.hist.mrps, s.hist.frames);
    EnqueueKeepsSizes(c, s.pc, s.packed, s.hist.mrps, s.hist.frames);
  }

  lemma CountKeepsCounters(done: seq<seq<Header>>, m: seq<Header>, triggersSent: nat, mrpsSent: nat)
    requires CounterInv(done, triggersSent, mrpsSent)
    ensures CounterInv(done + [m], Wrap64(triggersSent + |m|), Wrap64(mrpsSent + 1))
  {
    hide Flatten, Wrap64;
    FlattenAppended(done, m);
    Wrap64Absorbs(|done|, 1);
    Wrap64Absorbs(|Flatten(done)|, |m|);
  }

  lemma ProductSuccessor(m: nat, n: nat)
    ensures Product(m + 1, n) == Product(m, n) + n
  {
  }

  lemma CountKeepsInv(c: Config, s: State)
    requires WellFormed(c) && Inv(c, s) && s.pc.Count?
    ensures Inv(c, CountMrp(s))
  {
    hide WellFormed, QueueInv, AllocInv, OrderInv, OwnershipInv, CounterInv, MrpSizeInv, FrameSizeInv, FlushInv, FramesFor, FramesOf, Product, Wrap64;
    var ms, done := s.hist.mrps, Completed(s.pc, s.hist.mrps);
    assert ms == done + [Reversed(s.packed)];
    CountKeepsCounters(done, Reversed(s.packed), s.triggersSent, s.mrpsSent);
    ProductSuccessor(|done|, |c.templates|);
  }

  lemma ConsumerKeepsInv(c: Config, s: State)
    requires WellFormed(c) && Inv(c, s)
    ensures Inv(c, ConsumerStep(c, s))
  {
    hide Inv, WellFormed, TestFill, TestFlush, PopToDrop, PopToKeep, DeleteHeader, AppendToBatch, TestSend,
         PackNext, BuildNext, Enqueue, CountMrp;
    match s.pc {
      case OuterHead => TestsKeepInv(c, s);
      case FillTest => TestsKeepInv(c, s);
      case FlushTest => TestsKeepInv(c, s);
      case FlushPop => DropKeepsInv(c, s);
      case FlushDelete(h) => DeleteKeepsInv(c, s, h);
      case RetryPop => KeepKeepsInv(c, s);
      case Append(_) => AppendKeepsInv(c, s);
      case SendTest => TestSendKeepsInv(c, s);
      case Pack => if |s.batch| != 0 { TakeKeepsInv(c, s); } else { SealKeepsInv(c, s); }
      case PackDelete(h) => DeleteKeepsInv(c, s, h);
      case BuildFrame(_) => BuildKeepsInv(c, s);
      case PushFrame(_, _) => EnqueueKeepsInv(c, s);
      case Count => CountKeepsInv(c, s);
    }
  }

  lemma PushKeepsInv(c: Config, s: State, p: nat)
    requires WellFormed(c) && Enabled(s, Push(p)) && Inv(c, s)
    ensures Inv(c, Apply(c, s, Push(p)))
  {
    hide WellFormed, SizeInv, OrderInv, OwnershipInv, FlushInv, PackedInv, FrameInv, CounterInv, TallyInv, MrpSizeInv, FrameSizeInv, ConsumerStep, Popped;
    var h := s.producers[p].header;
    assert Popped(s.hist.pops) + (s.queue + [h]) == s.hist.pushed + [h];
  }

  lemma ProducerKeepsInv(c: Config, s: State, step: Step)
    requires WellFormed(c) && Enabled(s, step) && Inv(c, s) && !step.Consume? && !step.Push?
    ensures Inv(c, Apply(c, s, step))
  {
    hide WellFormed, QueueInv, SizeInv, OrderInv, OwnershipInv, FlushInv, RetryInv, PackedInv, FrameInv, CounterInv, TallyInv, MrpSizeInv, FrameSizeInv, ConsumerStep;
  }

  lemma InitInv(c: Config, s: State)
    requires WellFormed(c) && Init(s)
    ensures Inv(c, s)
  {
    hide ValidTemplate, MrpFrame, Raw, Reversed;
    forall e | 0 <= e < |c.templates|
      ensures |c.templates[e]| == FRAME_HDR && FramesFor([], e) == FramesOf(c.templates[e], [])
    {
      TemplateSize(c.templates[e]);
    }
  }

  /** Every step of every thread keeps the invariant. */
  lemma InvStep(c: Config, s: State, step: Step)
    requires WellFormed(c) && Enabled(s, step) && Inv(c, s)
    ensures Inv(c, Apply(c, s, step))
  {
    hide Inv, WellFormed, ConsumerStep;
    match step {
      case Consume => ConsumerKeepsInv(c, s);
      case Push(p) => PushKeepsInv(c, s, p);
      case _ => ProducerKeepsInv(c, s, step);
    }
  }

  /** Safety over whole runs: the invariant holds in every state of every interleaving. */
  lemma {:induction false} RunInv(c: Config, run: seq<State>, i: nat)
    requires WellFormed(c) && IsRun(c, run) && i < |run|
    ensures Inv(c, run[i])
    decreases i
  {
    hide Apply, Inv, MrpFrame;
    if i == 0 {
      InitInv(c, run[0]);
    } else {
      RunInv(c, run, i - 1);
      assert Next(c, run[i - 1], run[i - 1 + 1]);
      var step :| Enabled(run[i - 1], step) && run[i] == Apply(c, run[i - 1], step);
      InvStep(c, run[i - 1], step);
    }
  }
}
