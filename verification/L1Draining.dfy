/** How the consumer thread works off its queue, on its own and as long as its pushes to
    the send queue find room. */
module L1Draining {
  import opened Bytes
  import opened Wire
  import opened L1Pipeline

  /** `n` steps of the consumer while every other thread rests and no push to the send
      queue blocks. */
  function Iterate(c: Config, s: State, n: nat): State
    requires WellFormed(c)
    decreases n
  {
    if n == 0 then s else Iterate(c, ConsumerStep(c, s), n - 1)
  }

  lemma {:induction false} IterateAdds(c: Config, s: State, m: nat, n: nat)
    requires WellFormed(c)
    ensures Iterate(c, s, m + n) == Iterate(c, Iterate(c, s, m), n)
    decreases m
  {
    hide ConsumerStep, WellFormed;
    if m != 0 {
      IterateAdds(c, ConsumerStep(c, s), m - 1, n);
    }
  }

  /** The fields on which the consumer's progress depends. */
  datatype Progress = Progress(pc: ConsumerPc, flush: bool, queue: seq<Header>, batch: seq<Header>,
                               packed: seq<Header>, mrps: seq<seq<Header>>)

  function Of(s: State): Progress {
    Progress(s.pc, s.flush, s.queue, s.batch, s.packed, s.hist.mrps)
  }

  lemma FillRound(c: Config, s: State)
    requires WellFormed(c) && s.pc.FillTest? && !s.flush && |s.batch| != c.max && s.queue != []
    ensures Of(Iterate(c, s, 4)) == Of(s).(queue := s.queue[1..], batch := s.batch + [s.queue[0]])
  {
    hide WellFormed, PackNext, BuildNext, Enqueue, CountMrp, PopToDrop, DeleteHeader, TestSend;
    var s1 := ConsumerStep(c, s);
    var s2 := ConsumerStep(c, s1);
    var s3 := ConsumerStep(c, s2);
    assert Iterate(c, s, 4) == Iterate(c, s1, 3) == Iterate(c, s2, 2) == Iterate(c, s3, 1);
    assert Iterate(c, s3, 1) == ConsumerStep(c, s3);
  }

  lemma FillStops(c: Config, s: State)
    requires WellFormed(c) && s.pc.FillTest? && (|s.batch| == c.max || s.queue == [])
    ensures Of(Iterate(c, s, 1)) == Of(s).(pc := SendTest)
  {
    hide WellFormed, PackNext, BuildNext, Enqueue, CountMrp, PopToDrop, PopToKeep, DeleteHeader, TestSend, TestFlush;
    OneStep(c, s);
  }

  lemma FirstMoved(queue: seq<Header>, batch: seq<Header>, k: nat)
    requires 1 <= k <= |queue|
    ensures queue[1..][k - 1..] == queue[k..]
    ensures batch + [queue[0]] + queue[1..][..k - 1] == batch + queue[..k]
  {
  }

  lemma {:induction false} FillPhase(c: Config, s: State) returns (n: nat)
    requires WellFormed(c) && s.pc.FillTest? && !s.flush && |s.batch| <= c.max
    ensures var k := Min(c.max - |s.batch|, |s.queue|);
            Of(Iterate(c, s, n)) ==
            Of(s).(pc := SendTest, queue := s.queue[k..], batch := s.batch + s.queue[..k])
    decreases |s.queue|
  {
    hide WellFormed, ConsumerStep, Iterate;
    if |s.batch| == c.max || s.queue == [] {
      n := 1;
      FillStops(c, s);
      assert s.batch + s.queue[..0] == s.batch;
    } else {
      FillRound(c, s);
      var r := Iterate(c, s, 4);
      var m := FillPhase(c, r);
      IterateAdds(c, s, 4, m);
      n := 4 + m;
      FirstMoved(s.queue, s.batch, Min(c.max - |s.batch|, |s.queue|));
    }
  }

  lemma OneStep(c: Config, s: State)
    requires WellFormed(c)
    ensures Iterate(c, s, 1) == ConsumerStep(c, s)
  {
    hide WellFormed, ConsumerStep;
    assert Iterate(c, ConsumerStep(c, s), 0) == ConsumerStep(c, s);
  }

  lemma TwoSteps(c: Config, s: State)
    requires WellFormed(c)
    ensures Iterate(c, s, 2) == ConsumerStep(c, ConsumerStep(c, s))
  {
    hide WellFormed, ConsumerStep;
    OneStep(c, ConsumerStep(c, s));
  }

  lemma {:induction false} PackPhase(c: Config, s: State) returns (n: nat, packed: seq<Header>)
    requires WellFormed(c) && s.pc.Pack? && |s.batch| + |s.packed| <= c.max
    ensures Of(Iterate(c, s, n)) ==
            Of(s).(pc := BuildFrame(0), batch := [], packed := packed,
                   mrps := s.hist.mrps + [s.batch + Reversed(s.packed)])
    decreases |s.batch|
  {
    hide WellFormed, Reversed;
    if s.batch == [] {
      n, packed := 1, s.packed;
      OneStep(c, s);
      assert s.batch + Reversed(s.packed) == Reversed(s.packed);
    } else {
      TwoSteps(c, s);
      var r := Iterate(c, s, 2);
      TakeKeepsCurrent(s.batch, s.packed);
      var m;
      m, packed := PackPhase(c, r);
      IterateAdds(c, s, 2, m);
      n := 2 + m;
    }
  }

  lemma {:induction false} DistributePhase(c: Config, s: State) returns (n: nat)
    requires WellFormed(c) && s.pc.BuildFrame? && s.pc.k <= |c.templates|
    ensures Of(Iterate(c, s, n)) == Of(s).(pc := OuterHead, packed := [])
    decreases |c.templates| - s.pc.k
  {
    hide ValidTemplate, MrpFrame, Raw, Wrap64;
    TwoSteps(c, s);
    var r := Iterate(c, s, 2);
    if s.pc.k == |c.templates| {
      n := 2;
    } else {
      var m := DistributePhase(c, r);
      IterateAdds(c, s, 2, m);
      n := 2 + m;
    }
  }

  /** A queue cut into MRPs: full ones, and a last one with what remains. */
  function Chunks(q: seq<Header>, max: nat): seq<seq<Header>>
    requires max >= 1
    decreases |q|
  {
    if |q| == 0 then []
    else if |q| <= max then [q]
    else [q[..max]] + Chunks(q[max..], max)
  }

  /** ceil(q / max) MRPs, all full except possibly the last, containing the queue in order. */
  lemma {:induction false} ChunksShape(q: seq<Header>, max: nat)
    requires max >= 1
    ensures |Chunks(q, max)| == (|q| + max - 1) / max
    ensures forall j :: 0 <= j < |Chunks(q, max)| - 1 ==> |Chunks(q, max)[j]| == max
    ensures Flatten(Chunks(q, max)) == q
    decreases |q|
  {
    if |q| == 0 {
      CeilStep(0, max);
    } else if |q| <= max {
      CeilStep(|q|, max);
      FlattenAppended([], q);
      assert [] + [q] == [q];
    } else {
      ChunksShape(q[max..], max);
      CeilStep(|q|, max);
      FlattenPrepended(q[..max], Chunks(q[max..], max));
    }
  }

  lemma CeilStep(n: nat, max: nat)
    requires max >= 1
    ensures n == 0 ==> (n + max - 1) / max == 0
    ensures 0 < n <= max ==> (n + max - 1) / max == 1
    ensures n > max ==> (n + max - 1) / max == 1 + (n - max + max - 1) / max
  {
    if n == 0 {
      DivUnique(max - 1, max, 0, max - 1);
    } else if n <= max {
      DivUnique(n + max - 1, max, 1, n - 1);
    } else {
      var x := n - max + max - 1;
      DivUnique(x + max, max, x / max + 1, x % max);
    }
  }

  lemma DivUnique(v: nat, d: nat, q: nat, r: nat)
    requires r < d && v == q * d + r
    ensures v / d == q
  {
    QuotientUnique(v, d, q, r);
    Scaled(v / d - q, d);
    assert (v / d - q) * d == 0;
  }

  lemma {:induction false} FlattenPrepended(m: seq<Header>, ms: seq<seq<Header>>)
    ensures Flatten([m] + ms) == m + Flatten(ms)
    decreases |ms|
  {
    if |ms| == 0 {
      FlattenAppended([], m);
      assert [m] + ms == [] + [m];
    } else {
      var n := |ms| - 1;
      FlattenPrepended(m, ms[..n]);
      FlattenAppended([m] + ms[..n], ms[n]);
      assert [m] + ms == ([m] + ms[..n]) + [ms[n]];
    }
  }

  /** One pass of the outer loop on a non-empty queue seals exactly one MRP. */
  lemma LoopPass(c: Config, s: State) returns (n: nat)
    requires WellFormed(c) && c.max >= 1
    requires s.pc.OuterHead? && !s.flush && s.batch == [] && s.packed == [] && s.queue != []
    ensures var k := Min(c.max, |s.queue|);
            Of(Iterate(c, s, n)) == Of(s).(queue := s.queue[k..], mrps := s.hist.mrps + [s.queue[..k]])
  {
    hide WellFormed, TestFill, TestFlush, PopToDrop, PopToKeep, DeleteHeader, AppendToBatch, PackNext, BuildNext, Enqueue, CountMrp;
    OneStep(c, s);
    var s1 := Iterate(c, s, 1);
    var n1 := FillPhase(c, s1);
    var s2 := Iterate(c, s1, n1);
    OneStep(c, s2);
    var s3 := Iterate(c, s2, 1);
    var b := s.queue[..Min(c.max, |s.queue|)];
    assert s3.batch == s2.batch == [] + b == b;
    assert s3.batch + Reversed(s3.packed) == b;
    var n3, packed := PackPhase(c, s3);
    var s4 := Iterate(c, s3, n3);
    var n4 := DistributePhase(c, s4);
    IterateAdds(c, s3, n3, n4);
    IterateAdds(c, s2, 1, n3 + n4);
    IterateAdds(c, s1, n1, 1 + n3 + n4);
    IterateAdds(c, s, 1, n1 + 1 + n3 + n4);
    n := 1 + n1 + 1 + n3 + n4;
  }

  /** With the flag down, no new pushes and room for every frame the consumer empties a
      queue of q headers, in finitely many steps, into ceil(q / max) MRPs that are the queue
      cut into pieces, and is back at its loop head. */
  lemma {:induction false} ConsumerDrains(c: Config, s: State) returns (n: nat)
    requires WellFormed(c) && c.max >= 1
    requires s.pc.OuterHead? && !s.flush && s.batch == [] && s.packed == []
    ensures Of(Iterate(c, s, n)) == Of(s).(queue := [], mrps := s.hist.mrps + Chunks(s.queue, c.max))
    decreases |s.queue|
  {
    hide WellFormed;
    if s.queue == [] {
      n := 0;
      assert s.hist.mrps + [] == s.hist.mrps;
    } else {
      var n1 := LoopPass(c, s);
      var r := Iterate(c, s, n1);
      var n2 := ConsumerDrains(c, r);
      IterateAdds(c, s, n1, n2);
      n := n1 + n2;
      var k := Min(c.max, |s.queue|);
      assert s.queue[..|s.queue|] == s.queue;
      assert s.hist.mrps + [s.queue[..k]] + Chunks(s.queue[k..], c.max) == s.hist.mrps + Chunks(s.queue, c.max);
    }
  }

  /** Why the limit has to be positive: with MAX_TRIGGERS_PER_L1MRP = 0 no run ever
      takes a header out of the queue. */
  lemma {:induction false} ZeroLimitPopsNothing(c: Config, run: seq<State>, i: nat)
    requires WellFormed(c) && IsRun(c, run) && i < |run| && c.max == 0
    ensures run[i].hist.pops == [] && run[i].queue == run[i].hist.pushed && run[i].hist.mrps == []
    decreases i
  {
    hide Apply, Popped, WellFormed, SizeInv, AllocInv, OrderInv, OwnershipInv, FlushInv, RetryInv, PackedInv, FrameInv,
         CounterInv, TallyInv, FrameSizeInv;
    RunInv(c, run, i);
    if i != 0 {
      ZeroLimitPopsNothing(c, run, i - 1);
      RunInv(c, run, i - 1);
      assert Next(c, run[i - 1], run[i - 1 + 1]);
      var step :| Enabled(run[i - 1], step) && run[i] == Apply(c, run[i - 1], step);
      PopsOnlyBelowLimit(c, run[i - 1], step);
    }
    NothingPopped(run[i]);
  }

  lemma NothingPopped(s: State)
    requires s.hist.pops == []
    ensures Popped(s.hist.pops) + s.queue == s.queue
  {
  }

  lemma PopsOnlyBelowLimit(c: Config, s: State, step: Step)
    requires WellFormed(c) && Enabled(s, step) && SizeInv(c.max, s.pc, |s.batch|, |s.packed|)
    ensures Apply(c, s, step).hist.pops != s.hist.pops ==> |s.batch| < c.max
  {
    hide WellFormed, MrpFrame, Raw, Reversed, Wrap64;
  }
}
