/** What a flush stops, in the whole system: senders, ARP frames and the bounded send
    queue make no difference. */
module SystemFlush {
  import L1 = L1Pipeline
  import L1Flush
  import Net = SendSide
  import opened NetworkingSystem
  import opened SystemDraining

  /** Some continuation of the whole system with the flag left as it is seals another
      MRP. */
  ghost predicate Seals(c: Config, s: State)
    requires WellFormed(c)
  {
    exists path :: FlagUntouched(path) && Executable(c, s, path)
                   && |Execute(c, s, path).l1.hist.mrps| > |s.l1.hist.mrps|
  }

  /** What the pipeline does in a schedule of the system. */
  lemma {:induction false} Project(c: Config, s: State, path: seq<Step>) returns (steps: seq<L1.Step>)
    requires WellFormed(c) && Executable(c, s, path)
    ensures L1.Executable(c.l1, s.l1, steps) && L1.Execute(c.l1, s.l1, steps) == Execute(c, s, path).l1
    ensures FlagUntouched(path) ==> L1Flush.FlagUntouched(steps)
    decreases |path|
  {
    hide L1.WellFormed, L1.Apply, Net.Apply;
    if path == [] {
      steps := [];
    } else {
      var rest := Project(c, Apply(c, s, path[0]), path[1..]);
      var own := match path[0] case Local(l) => [l] case PushMrp => [L1.Consume] case _ => [];
      steps := own + rest;
      assert own != [] ==> steps[0] == own[0] && steps[1..] == rest;
      assert own == [] ==> steps == rest;
    }
  }

  /** Exactly when a flush does not stop sending, for every reachable state of the
      system: back pressure does not change the condition. */
  lemma SealsExactlyWhenSealable(c: Config, run: seq<State>, i: nat, p: nat)
    requires WellFormed(c) && IsRun(c, run) && i < |run| && run[i].l1.flush
    ensures Seals(c, run[i]) <==> L1Flush.Sealable(c.l1, run[i].l1)
  {
    hide L1.Inv, Net.Inv, L1.WellFormed, L1Flush.Sealable, L1.Executable, L1.Execute, Executable, Execute, Busy, LinkInv, OrderInv;
    var s := run[i];
    RunInv(c, run, i);
    if L1Flush.Sealable(c.l1, s.l1) {
      L1Flush.SealableSeals(c.l1, s.l1);
      var steps := L1Flush.SealingPath(c.l1, s.l1);
      var first, u := FinishAll(c, s);
      QueueBounded(s.net);
      var second, t := SimulatePath(c, u, steps, p);
      LeadsConcat(c, s, first, u, second, t);
      assert FlagUntouched(first + second) && Executable(c, s, first + second);
    } else {
      forall path | FlagUntouched(path) && Executable(c, s, path)
        ensures Execute(c, s, path).l1.hist.mrps == s.l1.hist.mrps
      {
        var steps := Project(c, s, path);
        L1Flush.ExecuteKeepsUnsealable(c.l1, s.l1, steps);
      }
    }
  }

  lemma QueueBounded(n: Net.State)
    requires Net.Inv(n)
    ensures |n.queue| <= Net.CAPACITY
  {
  }
}
