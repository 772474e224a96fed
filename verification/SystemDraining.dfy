/** Draining with the bounded send queue: the consumer blocks at 1000 queued frames, so
    that the consumer and a packet handler thread have to take turns. */
module SystemDraining {
  import opened Bytes
  import L1 = L1Pipeline
  import Draining = L1Draining
  import Net = SendSide
  import opened NetworkingSystem

  // ----- schedules -----

  /** The steps can be taken one after the other, from `s`. */
  predicate Executable(c: Config, s: State, path: seq<Step>)
    requires WellFormed(c)
    decreases |path|
  {
    path == [] || (Enabled(s, path[0]) && Executable(c, Apply(c, s, path[0]), path[1..]))
  }

  function Execute(c: Config, s: State, path: seq<Step>): State
    requires WellFormed(c) && Executable(c, s, path)
    decreases |path|
  {
    if path == [] then s else Execute(c, Apply(c, s, path[0]), path[1..])
  }

  /** `path` leads from `s` to `t`. */
  predicate Leads(c: Config, s: State, path: seq<Step>, t: State)
    requires WellFormed(c)
  {
    Executable(c, s, path) && Execute(c, s, path) == t
  }

  lemma {:induction false} LeadsConcat(c: Config, s: State, a: seq<Step>, t: State, b: seq<Step>, u: State)
    requires WellFormed(c) && Leads(c, s, a, t) && Leads(c, t, b, u)
    ensures Leads(c, s, a + b, u)
    decreases |a|
  {
    hide WellFormed, Apply, Enabled;
    if a == [] {
      assert a + b == b;
    } else {
      LeadsConcat(c, Apply(c, s, a[0]), a[1..], t, b, u);
      assert (a + b)[0] == a[0] && (a + b)[1..] == a[1..] + b;
    }
  }

  lemma LeadsOne(c: Config, s: State, step: Step)
    requires WellFormed(c) && Enabled(s, step)
    ensures Leads(c, s, [step], Apply(c, s, step))
  {
    hide WellFormed, Apply, Enabled;
    var t := Apply(c, s, step);
    assert [step][1..] == [];
    assert Executable(c, t, []) && Execute(c, t, []) == t;
    assert Executable(c, s, [step]) && Execute(c, s, [step]) == Execute(c, t, []);
  }

  predicate ConsumerStep(step: Step) {
    step == Local(L1.Consume) || step.PushMrp?
  }

  predicate SenderStep(step: Step) {
    step.Sender? && (step.net.Ring? ==> step.net.accepts)
  }

  /** Only the consumer moves. */
  predicate ConsumerOnly(path: seq<Step>) {
    forall k :: 0 <= k < |path| ==> ConsumerStep(path[k])
  }

  /** Only the consumer and packet handler threads move, and the ring accepts. */
  predicate Working(path: seq<Step>) {
    forall k :: 0 <= k < |path| ==> ConsumerStep(path[k]) || SenderStep(path[k])
  }

  // ----- senders -----

  lemma SenderMove(c: Config, s: State, step: Net.Step)
    requires WellFormed(c) && !step.Enqueue? && Net.Enabled(s.net, step)
    ensures Leads(c, s, [Sender(step)], s.(net := Net.Apply(s.net, step)))
  {
    LeadsOne(c, s, Sender(step));
  }

  /** A sender in the middle of a job finishes it. */
  lemma FinishSender(c: Config, s: State, p: nat) returns (path: seq<Step>, t: State)
    requires WellFormed(c)
    ensures Leads(c, s, path, t) && Working(path)
    ensures t.l1 == s.l1 && t.net.queue == s.net.queue
    ensures t.net.senders == s.net.senders || t.net.senders == s.net.senders[p := Net.Idle]
    ensures Net.SenderAt(t.net.senders, p).Idle?
    decreases match Net.SenderAt(s.net.senders, p) case Idle => 0 case Handed(_) => 1 case Counted(_) => 2 case Taken(_) => 3
  {
    hide WellFormed, Leads, Net.OnWire, Wrap64;
    var pc := Net.SenderAt(s.net.senders, p);
    if pc.Idle? {
      path, t := [], s;
      LeadsNowhere(c, s);
    } else {
      var step := if pc.Taken? then Net.CountFrame(p) else if pc.Counted? then Net.Ring(p, true) else Net.Release(p);
      SenderMove(c, s, step);
      var u := s.(net := Net.Apply(s.net, step));
      var rest;
      rest, t := FinishSender(c, u, p);
      path := [Sender(step)] + rest;
      LeadsConcat(c, s, [Sender(step)], u, rest, t);
    }
  }

  lemma LeadsNowhere(c: Config, s: State)
    requires WellFormed(c)
    ensures Leads(c, s, [], s)
  {
  }

  function Busy(senders: map<nat, Net.SenderPc>): set<nat> {
    set p | p in senders && !senders[p].Idle?
  }

  lemma {:induction false} FinishAll(c: Config, s: State) returns (path: seq<Step>, t: State)
    requires WellFormed(c)
    ensures Leads(c, s, path, t) && Working(path)
    ensures t.l1 == s.l1 && t.net.queue == s.net.queue && Busy(t.net.senders) == {}
    decreases |Busy(s.net.senders)|
  {
    hide WellFormed, Leads;
    if Busy(s.net.senders) == {} {
      path, t := [], s;
      LeadsNowhere(c, s);
    } else {
      var p :| p in Busy(s.net.senders);
      var first, u := FinishSender(c, s, p);
      assert Busy(s.net.senders) == Busy(u.net.senders) + {p};
      var rest;
      rest, t := FinishAll(c, u);
      path := first + rest;
      LeadsConcat(c, s, first, u, rest, t);
    }
  }

  /** An idle sender takes the oldest frame through. */
  lemma SenderRound(c: Config, s: State, p: nat) returns (path: seq<Step>, t: State)
    requires WellFormed(c) && Busy(s.net.senders) == {} && s.net.queue != []
    ensures Leads(c, s, path, t) && Working(path)
    ensures t.l1 == s.l1 && t.net.queue == s.net.queue[1..] && Busy(t.net.senders) == {}
  {
    hide WellFormed, Leads;
    assert Net.SenderAt(s.net.senders, p).Idle? by { assert p in s.net.senders ==> p !in Busy(s.net.senders); }
    SenderMove(c, s, Net.TryPop(p));
    var u := s.(net := Net.Apply(s.net, Net.TryPop(p)));
    var rest;
    rest, t := FinishSender(c, u, p);
    path := [Sender(Net.TryPop(p))] + rest;
    LeadsConcat(c, s, [Sender(Net.TryPop(p))], u, rest, t);
    assert Busy(t.net.senders) == {};
  }

  lemma {:induction false} EmptySendQueue(c: Config, s: State, p: nat) returns (path: seq<Step>, t: State)
    requires WellFormed(c) && Busy(s.net.senders) == {}
    ensures Leads(c, s, path, t) && Working(path)
    ensures t.l1 == s.l1 && t.net.queue == [] && Busy(t.net.senders) == {}
    decreases |s.net.queue|
  {
    hide WellFormed, Leads, Busy;
    if s.net.queue == [] {
      path, t := [], s;
      LeadsNowhere(c, s);
    } else {
      var first, u := SenderRound(c, s, p);
      var rest;
      rest, t := EmptySendQueue(c, u, p);
      path := first + rest;
      LeadsConcat(c, s, first, u, rest, t);
    }
  }

  // ----- the consumer in the system -----

  /** The consumer's next step. */
  function Move(s: State): Step {
    if s.l1.pc.PushFrame? then PushMrp else Local(L1.Consume)
  }

  /** Only a full send queue stops the consumer, and only at a push. */
  lemma ConsumerMoves(c: Config, s: State)
    requires WellFormed(c)
    ensures Enabled(s, Move(s)) <==> (s.l1.pc.PushFrame? ==> |s.net.queue| < Net.CAPACITY)
    ensures Enabled(s, Move(s)) ==>
              var t := Apply(c, s, Move(s));
              && t.l1 == L1.ConsumerStep(c.l1, s.l1) && t.net.senders == s.net.senders
              && |t.net.queue| == |s.net.queue| + if s.l1.pc.PushFrame? then 1 else 0
    ensures forall step :: ConsumerStep(step) && Enabled(s, step) ==> step == Move(s)
  {
    hide L1.ConsumerStep;
  }

  /** A step of the pipeline can be taken in the system; where the send queue is full,
      after a round of sender `p`. */
  lemma SimulateStep(c: Config, s: State, step: L1.Step, p: nat) returns (path: seq<Step>, t: State)
    requires WellFormed(c) && Busy(s.net.senders) == {} && |s.net.queue| <= Net.CAPACITY && L1.Enabled(s.l1, step)
    ensures Leads(c, s, path, t) && (step.Consume? ==> Working(path)) && (!step.SetFlush? ==> FlagUntouched(path))
    ensures t.l1 == L1.Apply(c.l1, s.l1, step) && Busy(t.net.senders) == {} && |t.net.queue| <= Net.CAPACITY
  {
    hide Leads, L1.WellFormed, L1.ConsumerStep, Busy;
    if !step.Consume? {
      LeadsOne(c, s, Local(step));
      path, t := [Local(step)], Apply(c, s, Local(step));
    } else {
      var first, u := [], s;
      LeadsNowhere(c, s);
      if |s.net.queue| == Net.CAPACITY {
        first, u := SenderRound(c, s, p);
      }
      ConsumerMoves(c, u);
      t := Apply(c, u, Move(u));
      LeadsOne(c, u, Move(u));
      LeadsConcat(c, s, first, u, [Move(u)], t);
      path := first + [Move(u)];
    }
  }

  /** Nobody touches the end-of-burst flag. */
  predicate FlagUntouched(path: seq<Step>) {
    forall k :: 0 <= k < |path| ==> !(path[k].Local? && path[k].l1.SetFlush?)
  }

  /** Back pressure only delays: every schedule of the pipeline can be carried out
      against the bounded send queue, with rounds of sender `p` in between. */
  lemma {:induction false} SimulatePath(c: Config, s: State, steps: seq<L1.Step>, p: nat) returns (path: seq<Step>, t: State)
    requires WellFormed(c) && Busy(s.net.senders) == {} && |s.net.queue| <= Net.CAPACITY
    requires L1.Executable(c.l1, s.l1, steps)
    ensures Leads(c, s, path, t) && t.l1 == L1.Execute(c.l1, s.l1, steps)
    ensures (forall k :: 0 <= k < |steps| ==> steps[k].Consume?) ==> Working(path)
    ensures (forall k :: 0 <= k < |steps| ==> !steps[k].SetFlush?) ==> FlagUntouched(path)
    ensures Busy(t.net.senders) == {} && |t.net.queue| <= Net.CAPACITY
    decreases |steps|
  {
    hide Leads, L1.WellFormed, L1.Apply, L1.Enabled, Busy;
    if steps == [] {
      path, t := [], s;
      LeadsNowhere(c, s);
    } else {
      var first, u := SimulateStep(c, s, steps[0], p);
      var rest;
      rest, t := SimulatePath(c, u, steps[1..], p);
      path := first + rest;
      LeadsConcat(c, s, first, u, rest, t);
    }
  }

  function Consumes(n: nat): (steps: seq<L1.Step>)
    ensures |steps| == n
  {
    seq(n, _ => L1.Consume)
  }

  lemma {:induction false} IterateIsSchedule(c: L1.Config, s: L1.State, n: nat)
    requires L1.WellFormed(c)
    ensures L1.Executable(c, s, Consumes(n)) && L1.Execute(c, s, Consumes(n)) == Draining.Iterate(c, s, n)
    decreases n
  {
    hide L1.WellFormed, L1.ConsumerStep;
    if n != 0 {
      IterateIsSchedule(c, L1.ConsumerStep(c, s), n - 1);
      assert Consumes(n)[1..] == Consumes(n - 1);
    }
  }

  lemma LoopHeadEmpty(c: Config, s: State)
    requires WellFormed(c) && Inv(c, s) && s.l1.pc.OuterHead?
    ensures s.l1.batch == [] && s.l1.packed == [] && |s.net.queue| <= Net.CAPACITY
  {
    hide LinkInv, OrderInv, Net.TicketInv, Net.WireInv, Net.SettledInv, Net.FreedInv, Net.CountInv, Net.BuffersInv;
  }

  /** Draining the system: from any reachable state with the consumer at its loop head,
      the flag down and MAX >= 1, consumer and packet handler threads can empty both
      queues. The request queue is then sealed in pieces of MAX, and no frame is left
      with any sender. */
  lemma SystemDrains(c: Config, s: State, p: nat) returns (path: seq<Step>, t: State)
    requires WellFormed(c) && Inv(c, s) && s.l1.pc.OuterHead? && !s.l1.flush && c.l1.max >= 1
    ensures Leads(c, s, path, t) && Working(path)
    ensures Draining.Of(t.l1) ==
            Draining.Of(s.l1).(queue := [], mrps := s.l1.hist.mrps + Draining.Chunks(s.l1.queue, c.l1.max))
    ensures Quiescent(t.net)
  {
    hide Leads, L1.WellFormed, Inv, Draining.Iterate, Draining.Chunks;
    LoopHeadEmpty(c, s);
    var n := Draining.ConsumerDrains(c.l1, s.l1);
    var first, u := FinishAll(c, s);
    IterateIsSchedule(c.l1, u.l1, n);
    var second, v := SimulatePath(c, u, Consumes(n), p);
    LeadsConcat(c, s, first, u, second, v);
    var third;
    third, t := EmptySendQueue(c, v, p);
    path := first + second + third;
    LeadsConcat(c, s, first + second, v, third, t);
    forall q | q in t.net.senders ensures t.net.senders[q].Idle? {
      assert q !in Busy(t.net.senders);
    }
  }

  // ----- the consumer alone -----

  lemma {:induction false} IterateInv(c: L1.Config, s: L1.State, n: nat)
    requires L1.WellFormed(c) && L1.Inv(c, s)
    ensures L1.Inv(c, Draining.Iterate(c, s, n))
    decreases n
  {
    hide L1.Inv, L1.WellFormed, L1.ConsumerStep;
    if n != 0 {
      L1.ConsumerKeepsInv(c, s);
      IterateInv(c, L1.ConsumerStep(c, s), n - 1);
    }
  }

  lemma {:induction false} FramesGrow(c: L1.Config, s: L1.State, n: nat)
    requires L1.WellFormed(c)
    ensures |Draining.Iterate(c, s, n).hist.frames| >= |s.hist.frames|
    decreases n
  {
    hide L1.WellFormed, L1.ConsumerStep;
    if n != 0 {
      L1.ConsumerFrames(c, s);
      FramesGrow(c, L1.ConsumerStep(c, s), n - 1);
    }
  }

  /** A path of the consumer alone is an iteration of its steps that finds room for
      every frame it pushes. */
  lemma {:induction false} AlonePath(c: Config, s: State, path: seq<Step>)
    requires WellFormed(c) && ConsumerOnly(path) && Executable(c, s, path) && |s.net.queue| <= Net.CAPACITY
    ensures var t := Execute(c, s, path);
            && t.l1 == Draining.Iterate(c.l1, s.l1, |path|)
            && |s.net.queue| + |t.l1.hist.frames| - |s.l1.hist.frames| == |t.net.queue| <= Net.CAPACITY
    decreases |path|
  {
    hide L1.WellFormed, L1.ConsumerStep, Enabled, Apply;
    if path != [] {
      assert ConsumerStep(path[0]);
      ConsumerMoves(c, s);
      L1.ConsumerFrames(c.l1, s.l1);
      var t := Apply(c, s, path[0]);
      RoomAfterMove(s);
      AlonePath(c, t, path[1..]);
    }
  }

  lemma RoomAfterMove(s: State)
    ensures Enabled(s, Move(s)) && s.l1.pc.PushFrame? ==> |s.net.queue| < Net.CAPACITY
  {
  }

  lemma {:induction false} AloneRuns(c: Config, s: State, n: nat) returns (path: seq<Step>, t: State)
    requires WellFormed(c)
    requires |s.net.queue| + |Draining.Iterate(c.l1, s.l1, n).hist.frames| - |s.l1.hist.frames| <= Net.CAPACITY
    ensures Leads(c, s, path, t) && ConsumerOnly(path) && t.l1 == Draining.Iterate(c.l1, s.l1, n)
    decreases n
  {
    hide Leads, L1.WellFormed, L1.ConsumerStep, Enabled, Apply;
    if n == 0 {
      path, t := [], s;
      LeadsNowhere(c, s);
    } else {
      ConsumerMoves(c, s);
      L1.ConsumerFrames(c.l1, s.l1);
      FramesGrow(c.l1, L1.ConsumerStep(c.l1, s.l1), n - 1);
      var u := Apply(c, s, Move(s));
      LeadsOne(c, s, Move(s));
      var rest;
      rest, t := AloneRuns(c, u, n - 1);
      path := [Move(s)] + rest;
      LeadsConcat(c, s, [Move(s)], u, rest, t);
    }
  }

  /** With nothing to do the consumer goes round its outer loop. */
  lemma {:induction false} IdleLoop(c: L1.Config, s: L1.State, n: nat)
    requires L1.WellFormed(c) && s.queue == [] && s.batch == []
    requires s.pc.OuterHead? || s.pc.FillTest? || s.pc.SendTest?
    ensures Draining.Iterate(c, s, n).hist.frames == s.hist.frames
    decreases n
  {
    hide L1.WellFormed;
    if n != 0 {
      IdleLoop(c, L1.ConsumerStep(c, s), n - 1);
    }
  }

  /** Back at the loop head with nothing queued. */
  predicate Drained(s: L1.State) {
    s.pc.OuterHead? && s.queue == []
  }

  ghost predicate AloneDrains(c: Config, s: State)
    requires WellFormed(c)
  {
    exists path :: ConsumerOnly(path) && Executable(c, s, path) && Drained(Execute(c, s, path).l1)
  }

  /** The MRPs that `q` headers come to. */
  function MrpCount(q: nat, max: nat): nat
    requires max >= 1
  {
    (q + max - 1) / max
  }

  lemma ProductSum(m: nat, k: nat, e: nat)
    ensures (m + k) * e == m * e + k * e
  {
  }

  /** The frames that draining takes. */
  lemma FramesToDrain(c: L1.Config, s: L1.State) returns (n: nat)
    requires L1.WellFormed(c) && L1.Inv(c, s) && s.pc.OuterHead? && !s.flush && c.max >= 1
    requires s.batch == [] && s.packed == []
    ensures var t := Draining.Iterate(c, s, n);
            && Drained(t) && t.batch == []
            && |t.hist.frames| == |s.hist.frames| + MrpCount(|s.queue|, c.max) * |c.templates|
  {
    hide L1.Inv, L1.WellFormed, Draining.Iterate, Draining.Chunks;
    n := Draining.ConsumerDrains(c, s);
    IterateInv(c, s, n);
    var t := Draining.Iterate(c, s, n);
    FramesAtLoopHead(c, s);
    FramesAtLoopHead(c, t);
    Draining.ChunksShape(s.queue, c.max);
    ProductSum(|s.hist.mrps|, MrpCount(|s.queue|, c.max), |c.templates|);
  }

  lemma NothingInBatch(c: L1.Config, s: L1.State)
    requires L1.WellFormed(c) && L1.Inv(c, s) && s.pc.OuterHead?
    ensures s.batch == []
  {
  }

  /** Any later point has at least the frames of the first drained one, and an earlier
      drained one has as many. */
  lemma DrainedFrames(c: L1.Config, s: L1.State, n: nat, k: nat)
    requires L1.WellFormed(c) && L1.Inv(c, s)
    requires Drained(Draining.Iterate(c, s, k))
    ensures |Draining.Iterate(c, s, k).hist.frames| >= |Draining.Iterate(c, s, n).hist.frames|
  {
    hide L1.WellFormed, Draining.Iterate, L1.Inv;
    IterateInv(c, s, k);
    NothingInBatch(c, Draining.Iterate(c, s, k));
    if k >= n {
      Draining.IterateAdds(c, s, n, k - n);
      FramesGrow(c, Draining.Iterate(c, s, n), k - n);
    } else {
      Draining.IterateAdds(c, s, k, n - k);
      IdleLoop(c, Draining.Iterate(c, s, k), n - k);
    }
  }

  /** When the consumer needs no help: it drains its queue alone exactly when the send
      queue has room for all the frames, ceil(q / MAX) for each endpoint. */
  lemma AloneDrainsExactly(c: Config, s: State)
    requires WellFormed(c) && Inv(c, s) && s.l1.pc.OuterHead? && !s.l1.flush && c.l1.max >= 1
    ensures AloneDrains(c, s) <==>
              |s.net.queue| + MrpCount(|s.l1.queue|, c.l1.max) * |c.l1.templates| <= Net.CAPACITY
  {
    hide L1.Inv, Net.Inv, L1.WellFormed, Draining.Iterate, Executable, Execute, MrpCount;
    LoopHeadEmpty(c, s);
    var n := FramesToDrain(c.l1, s.l1);
    forall path | ConsumerOnly(path) && Executable(c, s, path) && Drained(Execute(c, s, path).l1)
      ensures |s.net.queue| + MrpCount(|s.l1.queue|, c.l1.max) * |c.l1.templates| <= Net.CAPACITY
    {
      AlonePath(c, s, path);
      DrainedFrames(c.l1, s.l1, n, |path|);
    }
    if |s.net.queue| + MrpCount(|s.l1.queue|, c.l1.max) * |c.l1.templates| <= Net.CAPACITY {
      var path, t := AloneRuns(c, s, n);
      assert ConsumerOnly(path) && Executable(c, s, path) && Drained(Execute(c, s, path).l1);
    }
  }
}
