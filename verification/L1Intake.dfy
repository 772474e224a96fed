/** What goes in: the calls of Async_RequestL1DataMulticast, and the headers that they
    come to, over every schedule. */
module L1Intake {
  import opened Bytes
  import opened Wire
  import opened L1Pipeline

  /** The arguments of a call. */
  datatype Call = Call(event: Event, zSuppressed: bool)

  /** The calls in a schedule that find the flag down, in order. */
  function Accepted(c: Config, s: State, path: seq<Step>): seq<Call>
    requires WellFormed(c) && Executable(c, s, path)
    decreases |path|
  {
    if path == [] then []
    else AcceptedBy(s, path[0]) + Accepted(c, Apply(c, s, path[0]), path[1..])
  }

  function AcceptedBy(s: State, step: Step): seq<Call> {
    match step
    case Enter(_, event, z) => if s.flush then [] else [Call(event, z)]
    case _ => []
  }

  /** The call that a header answers to. */
  function CallOf(h: Header): Call {
    Call(h.event, h.zSuppressed)
  }

  function CallsOf(hs: seq<Header>): (cs: seq<Call>)
    ensures |cs| == |hs|
  {
    seq(|hs|, i requires 0 <= i < |hs| => CallOf(hs[i]))
  }

  /** The producer is in the middle of this call. */
  predicate InCall(pc: ProducerPc, call: Call) {
    match pc
    case Outside => false
    case Checked(event, z) => call == Call(event, z)
    case Holding(h) => call == CallOf(h)
  }

  /** The producers that are in the middle of this call. */
  function Callers(producers: map<nat, ProducerPc>, call: Call): set<nat> {
    set p | p in producers && InCall(producers[p], call)
  }

  lemma CallersWithout(producers: map<nat, ProducerPc>, p: nat, call: Call)
    ensures |Callers(producers, call)| ==
            |Callers(producers, call) - {p}| + if p in producers && InCall(producers[p], call) then 1 else 0
  {
    hide InCall;
    if p in Callers(producers, call) {
      assert Callers(producers, call) == (Callers(producers, call) - {p}) + {p};
    } else {
      assert Callers(producers, call) - {p} == Callers(producers, call);
    }
  }

  lemma CallersMove(producers: map<nat, ProducerPc>, p: nat, pc: ProducerPc, call: Call)
    ensures var before := p in producers && InCall(producers[p], call);
            |Callers(producers[p := pc], call)| ==
            |Callers(producers, call)| - (if before then 1 else 0) + if InCall(pc, call) then 1 else 0
  {
    hide InCall;
    CallersWithout(producers, p, call);
    CallersWithout(producers[p := pc], p, call);
    assert Callers(producers[p := pc], call) - {p} == Callers(producers, call) - {p};
    hide Callers;
  }

  lemma CallsAppended(hs: seq<Header>, h: Header, call: Call)
    ensures multiset(CallsOf(hs + [h]))[call] == multiset(CallsOf(hs))[call] + if CallOf(h) == call then 1 else 0
  {
    assert CallsOf(hs + [h]) == CallsOf(hs) + [CallOf(h)];
  }

  /** How often a call has been pushed or is on its way. */
  function Count(s: State, call: Call): nat {
    multiset(CallsOf(s.hist.pushed))[call] + |Callers(s.producers, call)|
  }

  lemma CountStep(c: Config, s: State, step: Step, call: Call)
    requires WellFormed(c) && Enabled(s, step)
    ensures Count(Apply(c, s, step), call) == Count(s, call) + multiset(AcceptedBy(s, step))[call]
  {
    hide WellFormed, ConsumerStep, Callers, CallsOf;
    match step {
      case SetFlush(_) =>
      case Enter(p, event, z) => CallersMove(s.producers, p, Checked(event, z), call);
      case Allocate(p) =>
        var pc := s.producers[p];
        CallersMove(s.producers, p, Holding(Header(s.created, pc.event, pc.zSuppressed)), call);
      case Push(p) =>
        CallersMove(s.producers, p, Outside, call);
        CallsAppended(s.hist.pushed, s.producers[p].header, call);
      case Consume => ConsumerLeavesProducers(c, s);
    }
  }

  lemma {:induction false} CountAlong(c: Config, s: State, path: seq<Step>, call: Call)
    requires WellFormed(c) && Executable(c, s, path)
    ensures Count(Execute(c, s, path), call) == Count(s, call) + multiset(Accepted(c, s, path))[call]
    decreases |path|
  {
    hide WellFormed, Apply, Enabled, Count, AcceptedBy;
    if path != [] {
      CountStep(c, s, path[0], call);
      CountAlong(c, Apply(c, s, path[0]), path[1..], call);
    }
  }

  /** Over every schedule from the start: the headers pushed, together with the calls
      that producers are in the middle of, are exactly the calls that found the flag
      down, each as often as it was made. */
  lemma PushedAreAcceptedCalls(c: Config, s: State, path: seq<Step>, call: Call)
    requires WellFormed(c) && Init(s) && Executable(c, s, path)
    ensures var t := Execute(c, s, path);
            multiset(CallsOf(t.hist.pushed))[call] + |Callers(t.producers, call)| == multiset(Accepted(c, s, path))[call]
  {
    CountAlong(c, s, path, call);
    assert Callers(map[], call) == {};
    assert CallsOf([]) == [];
  }

  // ----- one call -----

  /** Producer `p` takes no step. */
  predicate Rests(path: seq<Step>, p: nat) {
    forall k :: 0 <= k < |path| ==>
      match path[k]
      case Enter(q, _, _) => q != p
      case Allocate(q) => q != p
      case Push(q) => q != p
      case _ => true
  }

  lemma OthersLeave(c: Config, s: State, step: Step, p: nat)
    requires WellFormed(c) && Enabled(s, step) && Rests([step], p)
    ensures ProducerAt(Apply(c, s, step), p) == ProducerAt(s, p)
  {
    hide WellFormed, ConsumerStep;
    assert [step][0] == step;
    if step.Consume? {
      ConsumerLeavesProducers(c, s);
    }
  }

  lemma {:induction false} RestingLeaves(c: Config, s: State, path: seq<Step>, p: nat)
    requires WellFormed(c) && Executable(c, s, path) && Rests(path, p)
    ensures ProducerAt(Execute(c, s, path), p) == ProducerAt(s, p)
    decreases |path|
  {
    hide WellFormed, Apply, Enabled, ProducerAt;
    if path != [] {
      assert Rests([path[0]], p) && Rests(path[1..], p);
      OthersLeave(c, s, path[0], p);
      RestingLeaves(c, Apply(c, s, path[0]), path[1..], p);
    }
  }

  /** From `s` to `t`, one header for this call joins the queue. */
  predicate Appends(s: State, t: State, call: Call) {
    && |t.queue| == |s.queue| + 1 && CallOf(t.queue[|s.queue|]) == call
    && t.queue == s.queue + [t.queue[|s.queue|]]
    && t.hist.pushed == s.hist.pushed + [t.queue[|s.queue|]]
  }

  /** One call with any steps of others in between: if the flag is down at its check, the
      allocation and the push can follow, and the header it pushes carries the event
      and the zero suppression that were passed in. */
  lemma CallPushesItsRequest(c: Config, s: State, p: nat, event: Event, zSuppressed: bool, others: seq<Step>, more: seq<Step>)
    requires WellFormed(c) && ProducerAt(s, p).Outside? && !s.flush && Rests(others, p) && Rests(more, p)
    ensures Enabled(s, Enter(p, event, zSuppressed))
    ensures var a := Apply(c, s, Enter(p, event, zSuppressed));
            Executable(c, a, others) ==>
              var b := Execute(c, a, others);
              Enabled(b, Allocate(p)) &&
              var d := Apply(c, b, Allocate(p));
              Executable(c, d, more) ==>
                var e := Execute(c, d, more);
                Enabled(e, Push(p)) &&
                var t := Apply(c, e, Push(p));
                ProducerAt(t, p).Outside? && Appends(e, t, Call(event, zSuppressed))
  {
    hide WellFormed, ConsumerStep, Executable, Execute;
    var a := Apply(c, s, Enter(p, event, zSuppressed));
    if Executable(c, a, others) {
      RestingLeaves(c, a, others, p);
      var b := Execute(c, a, others);
      var d := Apply(c, b, Allocate(p));
      if Executable(c, d, more) {
        RestingLeaves(c, d, more, p);
      }
    }
  }

  /** A call that finds the flag up does nothing. */
  lemma RefusedCall(c: Config, s: State, p: nat, event: Event, zSuppressed: bool)
    requires WellFormed(c) && ProducerAt(s, p).Outside? && s.flush
    ensures Enabled(s, Enter(p, event, zSuppressed)) && Apply(c, s, Enter(p, event, zSuppressed)) == s
  {
    hide WellFormed, ConsumerStep;
  }
}
