/** What the end-of-burst flag stops and what it does not, over runs in which it stays
    up. */
module L1Flush {
  import opened Bytes
  import opened Wire
  import opened L1Pipeline
  import opened L1Draining

  function AllDropped(hs: seq<Header>): (ps: seq<Pop>)
    ensures |ps| == |hs|
  {
    seq(|hs|, i requires 0 <= i < |hs| => Pop(hs[i], true))
  }

  lemma DroppedFirst(hs: seq<Header>, pops: seq<Pop>, deleted: seq<Header>)
    requires hs != []
    ensures pops + [Pop(hs[0], true)] + AllDropped(hs[1..]) == pops + AllDropped(hs)
    ensures deleted + [hs[0]] + hs[1..] == deleted + hs
  {
    assert [Pop(hs[0], true)] + AllDropped(hs[1..]) == AllDropped(hs);
  }

  lemma DropRound(c: Config, s: State)
    requires WellFormed(c) && s.pc.FlushTest? && s.flush && s.queue != []
    ensures Iterate(c, s, 3) ==
            s.(queue := s.queue[1..],
               hist := s.hist.(pops := s.hist.pops + [Pop(s.queue[0], true)], deleted := s.hist.deleted + [s.queue[0]],
                               droppedSinceTest := s.hist.droppedSinceTest + 1, sawFlush := true))
  {
    hide WellFormed, TestFill, PackNext, BuildNext, Enqueue, CountMrp, TestSend, AppendToBatch, PopToKeep;
    TwoSteps(c, s);
    OneStep(c, Iterate(c, s, 2));
    IterateAdds(c, s, 2, 1);
  }

  lemma DropEnds(c: Config, s: State)
    requires WellFormed(c) && s.pc.FlushTest? && s.flush && s.queue == []
    ensures Iterate(c, s, 2) == s.(pc := RetryPop, hist := s.hist.(sawFlush := true))
  {
    hide WellFormed, TestFill, PackNext, BuildNext, Enqueue, CountMrp, TestSend, AppendToBatch, PopToKeep, DeleteHeader;
    TwoSteps(c, s);
  }

  /** With the flag up and no new pushes, the flush loop drops and deletes the whole
      queue in order; the batch taken before survives, and the consumer is left
      waiting for one more header. */
  lemma {:induction false} FlushDropsQueue(c: Config, s: State) returns (n: nat)
    requires WellFormed(c) && s.pc.FlushTest? && s.flush
    ensures Iterate(c, s, n) ==
            s.(pc := RetryPop, queue := [],
               hist := s.hist.(pops := s.hist.pops + AllDropped(s.queue), deleted := s.hist.deleted + s.queue,
                               droppedSinceTest := s.hist.droppedSinceTest + |s.queue|, sawFlush := true))
    decreases |s.queue|
  {
    hide WellFormed, ConsumerStep, Iterate;
    if s.queue == [] {
      n := 2;
      DropEnds(c, s);
      assert s.hist.pops + AllDropped([]) == s.hist.pops && s.hist.deleted + [] == s.hist.deleted;
    } else {
      DropRound(c, s);
      var m := FlushDropsQueue(c, Iterate(c, s, 3));
      IterateAdds(c, s, 3, m);
      n := 3 + m;
      DroppedFirst(s.queue, s.hist.pops, s.hist.deleted);
    }
  }

  // ----- who can still get a request out -----

  /** The producers past the flush check of line 71. */
  function Active(producers: map<nat, ProducerPc>): set<nat> {
    set p | p in producers && !producers[p].Outside?
  }

  /** A batch can be started: one header gets the consumer past the test of line 168 and
      is dropped, another one, pushed later, ends the retry loop. */
  predicate CanStart(max: nat, active: nat, queued: nat) {
    max >= 1 && active >= 1 && active + queued >= 2
  }

  /** Whether an MRP can still be sealed while the flag stays up, from the program point,
      the producers past their check, and the sizes of queue and batch. */
  predicate CanSeal(max: nat, pc: ConsumerPc, active: nat, queued: nat, batch: nat) {
    match pc
    case FillTest => if batch == 0 then CanStart(max, active, queued) else batch == max || queued == 0 || active >= 1
    case FlushTest => active >= 1
    case FlushPop => active >= 1
    case FlushDelete(_) => active >= 1
    case RetryPop => active >= 1 || queued == 1 || (queued > 1 && batch + 1 == max)
    case Append(_) => active >= 1 || queued == 0 || batch + 1 == max
    case SendTest => batch > 0 || CanStart(max, active, queued)
    case Pack => true
    case PackDelete(_) => true
    case _ => CanStart(max, active, queued)
  }

  predicate Sealable(c: Config, s: State) {
    CanSeal(c.max, s.pc, |Active(s.producers)|, |s.queue|, |s.batch|)
  }

  lemma ActiveMoves(producers: map<nat, ProducerPc>, p: nat, pc: ProducerPc)
    requires p in producers && !producers[p].Outside?
    ensures !pc.Outside? ==> Active(producers[p := pc]) == Active(producers)
    ensures pc.Outside? ==> |Active(producers)| == |Active(producers[p := pc])| + 1
  {
    if pc.Outside? {
      assert Active(producers) == Active(producers[p := pc]) + {p};
    }
  }

  // ----- what a flush stops -----

  /** Nobody passes the check of line 71 while the flag is up: pushes and producers past
      it add up to the same number. */
  lemma ProducerStep(c: Config, s: State, step: Step)
    requires WellFormed(c) && Enabled(s, step) && s.flush && !step.Consume?
    ensures var s' := Apply(c, s, step);
            && |s'.hist.pushed| + |Active(s'.producers)| == |s.hist.pushed| + |Active(s.producers)|
            && s'.pc == s.pc && s'.batch == s.batch && s'.packed == s.packed
            && s'.hist.mrps == s.hist.mrps && s'.hist.frames == s.hist.frames
            && |s'.queue| - |s.queue| == |s'.hist.pushed| - |s.hist.pushed| >= 0
  {
    hide WellFormed, ConsumerStep;
    match step {
      case SetFlush(_) =>
      case Enter(_, _, _) =>
      case Allocate(p) => ActiveMoves(s.producers, p, Apply(c, s, step).producers[p]);
      case Push(p) => ActiveMoves(s.producers, p, Outside);
    }
  }

  /** A consumer that cannot seal an MRP does not, and still cannot after its step. */
  lemma UnsealableConsumerStep(c: Config, s: State)
    requires WellFormed(c) && SizeInv(c.max, s.pc, |s.batch|, |s.packed|) && s.flush && !Sealable(c, s)
    ensures var s' := ConsumerStep(c, s);
            && !Sealable(c, s') && s'.hist.mrps == s.hist.mrps
            && (!Distributing(s.pc) ==> s'.hist.frames == s.hist.frames && !Distributing(s'.pc))
  {
    hide WellFormed, MrpFrame, Raw, Reversed, Wrap64, Active;
  }

  lemma UnsealableStep(c: Config, s: State, step: Step)
    requires WellFormed(c) && Enabled(s, step) && Inv(c, s) && s.flush && !Sealable(c, s)
    ensures var s' := Apply(c, s, step);
            && !Sealable(c, s') && s'.hist.mrps == s.hist.mrps
            && (!Distributing(s.pc) ==> s'.hist.frames == s.hist.frames && !Distributing(s'.pc))
  {
    hide WellFormed, ConsumerStep, QueueInv, AllocInv, OrderInv, OwnershipInv, FlushInv, RetryInv, PackedInv, FrameInv,
         CounterInv, TallyInv, MrpSizeInv, FrameSizeInv, Active;
    if step.Consume? {
      UnsealableConsumerStep(c, s);
    } else {
      ProducerStep(c, s, step);
      Sparse(c, s, Apply(c, s, step));
    }
  }

  /** Pushing one of the headers still on their way does not make sealing possible. */
  lemma Sparse(c: Config, s: State, s': State)
    requires !Sealable(c, s) && s'.pc == s.pc && s'.batch == s.batch
    requires |Active(s'.producers)| + |s'.queue| == |Active(s.producers)| + |s.queue| && |s'.queue| >= |s.queue|
    ensures !Sealable(c, s')
  {
    hide Active;
  }

  ghost predicate FlagUp(run: seq<State>, i: nat, j: nat)
    requires i <= j < |run|
  {
    forall k :: i <= k <= j ==> run[k].flush
  }

  /** While the flag stays up, every push is by a producer that was past line 71 when
      the period began: pushes grow by as much as those producers become fewer. */
  lemma {:induction false} PushesDuringFlush(c: Config, run: seq<State>, i: nat, j: nat)
    requires WellFormed(c) && IsRun(c, run) && i <= j < |run| && FlagUp(run, i, j)
    ensures |run[j].hist.pushed| + |Active(run[j].producers)| == |run[i].hist.pushed| + |Active(run[i].producers)|
    ensures |run[j].hist.pushed| >= |run[i].hist.pushed|
    decreases j - i
  {
    hide Apply, Active;
    if i < j {
      PushesDuringFlush(c, run, i, j - 1);
      assert Next(c, run[j - 1], run[j - 1 + 1]);
      var step :| Enabled(run[j - 1], step) && run[j] == Apply(c, run[j - 1], step);
      PushesInStep(c, run[j - 1], step);
    }
  }

  lemma PushesInStep(c: Config, s: State, step: Step)
    requires WellFormed(c) && Enabled(s, step) && s.flush
    ensures var s' := Apply(c, s, step);
            && |s'.hist.pushed| + |Active(s'.producers)| == |s.hist.pushed| + |Active(s.producers)|
            && |s'.hist.pushed| >= |s.hist.pushed|
  {
    hide WellFormed, ConsumerStep, Active;
    if step.Consume? {
      ConsumerLeavesProducers(c, s);
    } else {
      ProducerStep(c, s, step);
    }
  }

  /** While the flag stays up, nothing is sealed from a state where nothing can be, in
      any interleaving; and unless an MRP was being distributed, nothing is sent. */
  lemma {:induction false} FlushStopsSealing(c: Config, run: seq<State>, i: nat, j: nat)
    requires WellFormed(c) && IsRun(c, run) && i <= j < |run| && FlagUp(run, i, j)
    requires !Sealable(c, run[i])
    ensures !Sealable(c, run[j]) && run[j].hist.mrps == run[i].hist.mrps
    ensures !Distributing(run[i].pc) ==> run[j].hist.frames == run[i].hist.frames && !Distributing(run[j].pc)
    decreases j - i
  {
    hide Apply, Sealable, Inv;
    if i < j {
      FlushStopsSealing(c, run, i, j - 1);
      RunInv(c, run, j - 1);
      assert Next(c, run[j - 1], run[j - 1 + 1]);
      var step :| Enabled(run[j - 1], step) && run[j] == Apply(c, run[j - 1], step);
      UnsealableStep(c, run[j - 1], step);
    }
  }

  /** No producer is past line 71, the consumer holds nothing, and it is not past line
      169 towards a pop that it would keep. */
  predicate Quiet(s: State) {
    && Active(s.producers) == {} && s.batch == [] && s.packed == []
    && (s.pc.OuterHead? || s.pc.FillTest? || s.pc.FlushTest? || s.pc.FlushPop? || s.pc.FlushDelete? || s.pc.SendTest?
        || (s.pc.RetryPop? && s.queue == []))
  }

  /** No data requests beyond the end of burst, where it holds: from a quiet state on,
      and as long as the flag stays up, nothing is pushed, sealed or sent. */
  lemma NoRequestsFromQuietState(c: Config, run: seq<State>, i: nat, j: nat)
    requires WellFormed(c) && IsRun(c, run) && i <= j < |run| && FlagUp(run, i, j)
    requires Quiet(run[i])
    ensures |run[j].hist.pushed| == |run[i].hist.pushed|
    ensures run[j].hist.mrps == run[i].hist.mrps && run[j].hist.frames == run[i].hist.frames
  {
    hide Active;
    PushesDuringFlush(c, run, i, j);
    FlushStopsSealing(c, run, i, j);
  }

  // ----- what it does not stop -----

  /** A schedule in which nobody touches the flag. */
  predicate FlagUntouched(path: seq<Step>) {
    forall k :: 0 <= k < |path| ==> !path[k].SetFlush?
  }

  /** Some continuation with the flag left as it is seals another MRP. */
  ghost predicate Seals(c: Config, s: State)
    requires WellFormed(c)
  {
    exists path :: FlagUntouched(path) && Executable(c, s, path) && |Execute(c, s, path).hist.mrps| > |s.hist.mrps|
  }

  lemma {:induction false} ExecuteKeepsUnsealable(c: Config, s: State, path: seq<Step>)
    requires WellFormed(c) && Inv(c, s) && s.flush && !Sealable(c, s)
    requires FlagUntouched(path) && Executable(c, s, path)
    ensures Execute(c, s, path).hist.mrps == s.hist.mrps
    decreases |path|
  {
    hide Apply, Sealable, Inv;
    if path != [] {
      var step := path[0];
      UnsealableStep(c, s, step);
      InvStep(c, s, step);
      FlagStays(c, s, step);
      ExecuteKeepsUnsealable(c, Apply(c, s, step), path[1..]);
    }
  }

  lemma FlagStays(c: Config, s: State, step: Step)
    requires WellFormed(c) && Enabled(s, step) && !step.SetFlush?
    ensures Apply(c, s, step).flush == s.flush
  {
    hide WellFormed, ConsumerStep;
    if step.Consume? {
      ConsumerLeavesProducers(c, s);
    }
  }

  /** One more step in front of a continuation that seals. */
  lemma StepThenSeals(c: Config, s: State, step: Step)
    requires WellFormed(c) && Enabled(s, step) && !step.SetFlush?
    requires Seals(c, Apply(c, s, step)) && |Apply(c, s, step).hist.mrps| >= |s.hist.mrps|
    ensures Seals(c, s)
  {
    hide Apply, WellFormed;
    var t := Apply(c, s, step);
    var path :| FlagUntouched(path) && Executable(c, t, path) && |Execute(c, t, path).hist.mrps| > |t.hist.mrps|;
    var longer := [step] + path;
    assert longer[0] == step && longer[1..] == path;
    assert FlagUntouched(longer) && Executable(c, s, longer) && Execute(c, s, longer) == Execute(c, t, path);
  }

  /** Consumer steps in front of a continuation that seals, or sealing themselves. */
  lemma {:induction false} IterateThenSeals(c: Config, s: State, n: nat)
    requires WellFormed(c)
    requires Seals(c, Iterate(c, s, n)) || |Iterate(c, s, n).hist.mrps| > |s.hist.mrps|
    ensures Seals(c, s)
    decreases n
  {
    hide ConsumerStep, WellFormed, Seals;
    if n == 0 {
    } else {
      var t := ConsumerStep(c, s);
      ConsumerSeals(c, s);
      assert Apply(c, s, Consume) == t;
      if |t.hist.mrps| > |s.hist.mrps| {
        OneSealingStep(c, s);
      } else {
        IterateThenSeals(c, t, n - 1);
        StepThenSeals(c, s, Consume);
      }
    }
  }

  lemma OneSealingStep(c: Config, s: State)
    requires WellFormed(c) && |ConsumerStep(c, s).hist.mrps| > |s.hist.mrps|
    ensures Seals(c, s)
  {
    hide ConsumerStep, WellFormed;
    var path := [Consume];
    assert path[1..] == [];
    var t := Apply(c, s, Consume);
    assert Executable(c, t, path[1..]) && Execute(c, t, path[1..]) == t;
    assert FlagUntouched(path) && Executable(c, s, path) && Execute(c, s, path) == t;
  }

  /** The situations from which an MRP is sealed, each reduced to the one before. */
  lemma PackSeals(c: Config, s: State)
    requires WellFormed(c) && s.pc.Pack? && |s.batch| + |s.packed| <= c.max
    ensures Seals(c, s)
  {
    hide WellFormed, Reversed, Seals, Iterate;
    var n, packed := PackPhase(c, s);
    IterateThenSeals(c, s, n);
  }

  lemma ConsumeThenSeals(c: Config, s: State)
    requires WellFormed(c) && Seals(c, ConsumerStep(c, s))
    ensures Seals(c, s)
  {
    hide WellFormed, ConsumerStep, Seals;
    OneStep(c, s);
    IterateThenSeals(c, s, 1);
  }

  lemma FullOrLastSeals(c: Config, s: State)
    requires WellFormed(c) && s.packed == [] && 0 < |s.batch| <= c.max
    requires s.pc.SendTest? || (s.pc.FillTest? && (|s.batch| == c.max || s.queue == []))
    ensures Seals(c, s)
  {
    hide WellFormed, Seals;
    var t := if s.pc.SendTest? then s else ConsumerStep(c, s);
    PackSeals(c, ConsumerStep(c, t));
    ConsumeThenSeals(c, t);
    if s.pc.FillTest? {
      ConsumeThenSeals(c, s);
    }
  }

  lemma AppendSeals(c: Config, s: State)
    requires WellFormed(c) && s.packed == [] && s.pc.Append? && |s.batch| < c.max
    requires |s.batch| + 1 == c.max || s.queue == []
    ensures Seals(c, s)
  {
    hide WellFormed, Seals;
    FullOrLastSeals(c, ConsumerStep(c, s));
    ConsumeThenSeals(c, s);
  }

  /** Whatever the flag, the header that ends the retry loop goes out with the batch if
      it is the last one queued or fills the batch. */
  lemma RetrySeals(c: Config, s: State)
    requires WellFormed(c) && s.packed == [] && s.pc.RetryPop? && |s.batch| < c.max && s.queue != []
    requires |s.batch| + 1 == c.max || |s.queue| == 1
    ensures Seals(c, s)
  {
    hide WellFormed, Seals;
    AppendSeals(c, ConsumerStep(c, s));
    ConsumeThenSeals(c, s);
  }

  /** The steps by which a producer past its check pushes its header. */
  lemma PushedThenSeals(c: Config, s: State, p: nat, t: State)
    requires WellFormed(c) && p in Active(s.producers)
    requires t == PushedBy(c, s, p) && Seals(c, t)
    ensures Seals(c, s)
  {
    hide WellFormed, Seals, ConsumerStep;
    if s.producers[p].Checked? {
      var a := Apply(c, s, Allocate(p));
      StepThenSeals(c, a, Push(p));
      StepThenSeals(c, s, Allocate(p));
    } else {
      StepThenSeals(c, s, Push(p));
    }
  }

  function PushedBy(c: Config, s: State, p: nat): State
    requires WellFormed(c) && p in Active(s.producers)
  {
    if s.producers[p].Checked? then Apply(c, Apply(c, s, Allocate(p)), Push(p)) else Apply(c, s, Push(p))
  }

  lemma PushedEffect(c: Config, s: State, p: nat)
    requires WellFormed(c) && p in Active(s.producers)
    ensures var t := PushedBy(c, s, p);
            && |t.queue| == |s.queue| + 1 && |Active(t.producers)| == |Active(s.producers)| - 1
            && t.pc == s.pc && t.batch == s.batch && t.packed == s.packed && t.flush == s.flush
            && t.hist.mrps == s.hist.mrps
  {
    hide WellFormed, ConsumerStep;
    ActiveMoves(s.producers, p, Outside);
    var t := PushedBy(c, s, p);
    assert t.producers == s.producers[p := Outside];
  }

  /** With the queue emptied and a producer past its check, its push ends the retry loop. */
  lemma WaitingSeals(c: Config, s: State)
    requires WellFormed(c) && s.packed == [] && s.pc.RetryPop? && |s.batch| < c.max && s.queue == []
    requires |Active(s.producers)| >= 1
    ensures Seals(c, s)
  {
    hide WellFormed, Seals, Active, PushedBy;
    var p :| p in Active(s.producers);
    PushedEffect(c, s, p);
    RetrySeals(c, PushedBy(c, s, p));
    PushedThenSeals(c, s, p, PushedBy(c, s, p));
  }

  /** From inside the flush loop: it empties the queue and leaves the retry loop waiting. */
  lemma FlushLoopSeals(c: Config, s: State)
    requires WellFormed(c) && s.packed == [] && |s.batch| < c.max && s.flush
    requires s.pc.FlushTest? || s.pc.FlushPop? || s.pc.FlushDelete?
    requires |Active(s.producers)| >= 1
    ensures Seals(c, s)
    decreases if s.pc.FlushTest? then 0 else if s.pc.FlushDelete? then 1 else 2
  {
    hide WellFormed, Seals, Active, Iterate;
    if s.pc.FlushTest? {
      var n := FlushDropsQueue(c, s);
      WaitingSeals(c, Iterate(c, s, n));
      IterateThenSeals(c, s, n);
    } else {
      var t := ConsumerStep(c, s);
      if s.pc.FlushDelete? {
        FlushLoopSeals(c, t);
      } else if s.queue == [] {
        WaitingSeals(c, t);
      } else {
        FlushLoopSeals(c, ConsumerStep(c, t));
        ConsumeThenSeals(c, t);
      }
      ConsumeThenSeals(c, s);
    }
  }

  lemma FillTestSeals(c: Config, s: State)
    requires WellFormed(c) && s.packed == [] && s.pc.FillTest? && |s.batch| <= c.max && s.flush
    requires Sealable(c, s)
    ensures Seals(c, s)
  {
    hide WellFormed, Seals, Active, PushedBy;
    if s.batch != [] && (|s.batch| == c.max || s.queue == []) {
      FullOrLastSeals(c, s);
    } else if s.queue != [] {
      FlushLoopSeals(c, ConsumerStep(c, s));
      ConsumeThenSeals(c, s);
    } else {
      var p :| p in Active(s.producers);
      var t := PushedBy(c, s, p);
      PushedEffect(c, s, p);
      FlushLoopSeals(c, ConsumerStep(c, t));
      ConsumeThenSeals(c, t);
      PushedThenSeals(c, s, p, t);
    }
  }

  /** Around the outer loop, with an empty batch. */
  lemma LoopSeals(c: Config, s: State)
    requires WellFormed(c) && s.packed == [] && s.batch == [] && s.flush
    requires s.pc.OuterHead? || s.pc.SendTest?
    requires CanStart(c.max, |Active(s.producers)|, |s.queue|)
    ensures Seals(c, s)
    decreases if s.pc.OuterHead? then 0 else 1
  {
    hide WellFormed, Seals, Active;
    var t := ConsumerStep(c, s);
    if s.pc.OuterHead? {
      FillTestSeals(c, t);
    } else {
      LoopSeals(c, t);
    }
    ConsumeThenSeals(c, s);
  }

  lemma DistributionSeals(c: Config, s: State)
    requires WellFormed(c) && Distributing(s.pc) && s.batch == [] && s.flush
    requires Served(s.pc, |c.templates|) <= |c.templates| && (s.pc.PushFrame? ==> s.pc.k < |c.templates|)
    requires CanStart(c.max, |Active(s.producers)|, |s.queue|)
    ensures Seals(c, s)
    decreases if s.pc.PushFrame? then 1 else 0
  {
    hide WellFormed, Seals, Active, MrpFrame, Raw, Wrap64, CanStart, Iterate;
    if s.pc.BuildFrame? {
      var n := DistributePhase(c, s);
      IterateProducers(c, s, n);
      LoopSeals(c, Iterate(c, s, n));
      IterateThenSeals(c, s, n);
    } else if s.pc.Count? {
      LoopSeals(c, ConsumerStep(c, s));
      ConsumeThenSeals(c, s);
    } else {
      DistributionSeals(c, ConsumerStep(c, s));
      ConsumeThenSeals(c, s);
    }
  }

  lemma {:induction false} IterateProducers(c: Config, s: State, n: nat)
    requires WellFormed(c)
    ensures Iterate(c, s, n).producers == s.producers
    decreases n
  {
    hide WellFormed, ConsumerStep;
    if n != 0 {
      ConsumerLeavesProducers(c, s);
      IterateProducers(c, ConsumerStep(c, s), n - 1);
    }
  }

  lemma RetryPopSeals(c: Config, s: State)
    requires WellFormed(c) && s.packed == [] && |s.batch| < c.max && s.flush && (s.pc.RetryPop? || s.pc.Append?)
    requires Sealable(c, s)
    ensures Seals(c, s)
    decreases if s.pc.RetryPop? then 1 else 0
  {
    hide WellFormed, Seals, Active;
    if s.pc.RetryPop? && s.queue == [] {
      WaitingSeals(c, s);
    } else if s.pc.RetryPop? {
      RetryPopSeals(c, ConsumerStep(c, s));
      ConsumeThenSeals(c, s);
    } else {
      FillTestSeals(c, ConsumerStep(c, s));
      ConsumeThenSeals(c, s);
    }
  }

  lemma SealableSeals(c: Config, s: State)
    requires WellFormed(c) && Inv(c, s) && s.flush && Sealable(c, s)
    ensures Seals(c, s)
  {
    hide WellFormed, Seals, Active, QueueInv, AllocInv, OrderInv, OwnershipInv, FlushInv, RetryInv, FrameInv,
         CounterInv, TallyInv, MrpSizeInv, FrameSizeInv, MrpFrame, Raw, Reversed;
    match s.pc {
      case OuterHead => LoopSeals(c, s);
      case FillTest => FillTestSeals(c, s);
      case FlushTest => FlushLoopSeals(c, s);
      case FlushPop => FlushLoopSeals(c, s);
      case FlushDelete(_) => FlushLoopSeals(c, s);
      case RetryPop => RetryPopSeals(c, s);
      case Append(_) => RetryPopSeals(c, s);
      case SendTest => if s.batch == [] { LoopSeals(c, s); } else { FullOrLastSeals(c, s); }
      case Pack => PackSeals(c, s);
      case PackDelete(_) => PackSeals(c, ConsumerStep(c, s)); ConsumeThenSeals(c, s);
      case _ => DistributionSeals(c, s);
    }
  }

  /** Exactly when a flush does not stop sending: from a reachable state with the flag
      up, some continuation that leaves it up seals an MRP if and only if `CanSeal`
      holds of the program point, the producers past their check, queue and batch. */
  lemma SealsExactlyWhenSealable(c: Config, run: seq<State>, i: nat)
    requires WellFormed(c) && IsRun(c, run) && i < |run| && run[i].flush
    ensures Seals(c, run[i]) <==> Sealable(c, run[i])
  {
    hide Inv, Sealable;
    RunInv(c, run, i);
    if Sealable(c, run[i]) {
      SealableSeals(c, run[i]);
    } else {
      forall path | FlagUntouched(path) && Executable(c, run[i], path)
        ensures Execute(c, run[i], path).hist.mrps == run[i].hist.mrps
      {
        ExecuteKeepsUnsealable(c, run[i], path);
      }
    }
  }

  // ----- a run that shows it -----

  /** The states along a schedule. */
  function Trace(c: Config, s: State, path: seq<Step>): (run: seq<State>)
    requires WellFormed(c) && Executable(c, s, path)
    ensures |run| == |path| + 1 && run[0] == s && run[|path|] == Execute(c, s, path)
    decreases |path|
  {
    if path == [] then [s] else [s] + Trace(c, Apply(c, s, path[0]), path[1..])
  }

  lemma {:induction false} TraceSteps(c: Config, s: State, path: seq<Step>, i: nat)
    requires WellFormed(c) && Executable(c, s, path) && i < |path|
    ensures Next(c, Trace(c, s, path)[i], Trace(c, s, path)[i + 1])
    ensures FlagUntouched(path) ==> Trace(c, s, path)[i + 1].flush == Trace(c, s, path)[i].flush
    decreases |path|
  {
    hide WellFormed, Apply;
    var t := Apply(c, s, path[0]);
    if i == 0 {
      assert Next(c, s, t);
      if FlagUntouched(path) {
        FlagStays(c, s, path[0]);
      }
    } else {
      TraceSteps(c, t, path[1..], i - 1);
    }
  }

  lemma {:induction false} FlagUpAlong(c: Config, s: State, path: seq<Step>, i: nat)
    requires WellFormed(c) && Executable(c, s, path) && FlagUntouched(path) && i <= |path| && s.flush
    ensures Trace(c, s, path)[i].flush
  {
    hide WellFormed, Apply, Executable;
    if i != 0 {
      FlagUpAlong(c, s, path, i - 1);
      TraceSteps(c, s, path, i - 1);
    }
  }

  /** The start of the run: two producers pass the check, then the flag goes up. */
  function Prelude(a: Event, b: Event): seq<Step> {
    [SetFlush(false), Enter(0, a, false), Enter(1, b, false), SetFlush(true)]
  }

  lemma PreludeState(c: Config, s: State, a: Event, b: Event)
    requires WellFormed(c) && Init(s) && c.max >= 1
    ensures Executable(c, s, Prelude(a, b))
    ensures var t := Execute(c, s, Prelude(a, b));
            t.flush && t.hist == s.hist && Sealable(c, t)
  {
    hide WellFormed, ConsumerStep;
    var t0 := Apply(c, s, SetFlush(false));
    var t1 := Apply(c, t0, Enter(0, a, false));
    var t2 := Apply(c, t1, Enter(1, b, false));
    var t3 := Apply(c, t2, SetFlush(true));
    var path := Prelude(a, b);
    var three, two := path[1..], path[2..];
    assert three[1..] == two && two[1..] == [SetFlush(true)] && two[1..][1..] == [];
    assert Executable(c, t3, []) && Execute(c, t3, []) == t3;
    assert Executable(c, t2, two[1..]) && Execute(c, t2, two[1..]) == t3;
    assert Executable(c, t1, two) && Execute(c, t1, two) == t3;
    assert Executable(c, t0, three) && Execute(c, t0, three) == t3;
    assert Active(t3.producers) == {0, 1};
  }

  /** The comment of line 70 fails on a run: nothing has been pushed when the flag goes
      up, the flag stays up, and an MRP is sealed all the same. */
  lemma RequestSealedDuringFlush(c: Config, s: State, a: Event, b: Event) returns (run: seq<State>, i: nat)
    requires WellFormed(c) && Init(s) && c.max >= 1
    ensures IsRun(c, run) && run[0] == s && i < |run|
    ensures run[i].hist.pushed == [] && FlagUp(run, i, |run| - 1)
    ensures |run[|run| - 1].hist.mrps| > 0
  {
    hide WellFormed, Apply, Sealable, Inv, Seals;
    var path := Prelude(a, b);
    PreludeState(c, s, a, b);
    var start := Trace(c, s, path);
    var t := start[4];
    forall k | 0 <= k < 4 ensures Next(c, start[k], start[k + 1]) {
      TraceSteps(c, s, path, k);
    }
    RunInv(c, start, 4);
    SealableSeals(c, t);
    var rest := SealingPath(c, t);
    var end := Trace(c, t, rest);
    run, i := start[..4] + end, 4;
    forall k | 0 <= k < |run| - 1 ensures Next(c, run[k], run[k + 1]) {
      if k >= 4 {
        TraceSteps(c, t, rest, k - 4);
      }
    }
    forall k | 4 <= k < |run| ensures run[k].flush {
      FlagUpAlong(c, t, rest, k - 4);
    }
  }

  lemma SealingPath(c: Config, s: State) returns (path: seq<Step>)
    requires WellFormed(c) && Seals(c, s)
    ensures FlagUntouched(path) && Executable(c, s, path) && |Execute(c, s, path).hist.mrps| > |s.hist.mrps|
  {
    path :| FlagUntouched(path) && Executable(c, s, path) && |Execute(c, s, path).hist.mrps| > |s.hist.mrps|;
  }
}
