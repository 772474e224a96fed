/** What the invariant of the L1 pipeline means for callers and receivers: every
    run, every interleaving, every batch limit. */
module L1Guarantees {
  import opened Bytes
  import opened Wire
  import opened L1Pipeline

  predicate NoDuplicates<T(==)>(xs: seq<T>) {
    forall i, j :: 0 <= i < j < |xs| ==> xs[i] != xs[j]
  }

  // ----- fates -----

  lemma {:induction false} PopsSplit(ps: seq<Pop>)
    ensures multiset(Dropped(ps)) + multiset(Kept(ps)) == multiset(Popped(ps))
  {
    if |ps| != 0 {
      PopsSplit(ps[..|ps| - 1]);
    }
  }

  lemma DistinctPushes(s: State)
    requires AllocInv(s.created, s.producers, s.hist.pushed)
    ensures NoDuplicates(s.hist.pushed)
  {
  }

  lemma PrefixDistinct(a: seq<Header>, b: seq<Header>)
    requires NoDuplicates(a + b)
    ensures NoDuplicates(a) && NoDuplicates(b)
    ensures forall h :: h in a ==> h !in b
  {
    forall i, j | 0 <= i < j < |a| ensures a[i] != a[j] {
      assert (a + b)[i] != (a + b)[j];
    }
    forall i, j | 0 <= i < j < |b| ensures b[i] != b[j] {
      assert (a + b)[|a| + i] != (a + b)[|a| + j];
    }
    forall i, j | 0 <= i < |a| && 0 <= j < |b| ensures a[i] != b[j] {
      assert (a + b)[i] != (a + b)[|a| + j];
    }
  }

  lemma {:induction false} DistinctCounts(xs: seq<Header>, h: Header)
    requires NoDuplicates(xs)
    ensures multiset(xs)[h] == if h in xs then 1 else 0
  {
    if |xs| != 0 {
      var ys, x := xs[..|xs| - 1], xs[|xs| - 1];
      DistinctCounts(ys, h);
      assert xs == ys + [x];
      assert x !in ys;
    }
  }

  /** In every reachable state the headers popped so far, in order, followed by the
      queue are the push history, and each popped header is exactly once among
      those dropped, those inside an MRP and those in the current batch. */
  lemma EveryHeaderHasOneFate(c: Config, run: seq<State>, i: nat)
    requires WellFormed(c) && IsRun(c, run) && i < |run|
    ensures var s, h := run[i], run[i].hist;
            && Popped(h.pops) + s.queue == h.pushed
            && NoDuplicates(h.pushed)
            && Kept(h.pops) == Flatten(h.mrps) + Current(s.pc, s.batch, s.packed)
            && (forall x :: x in Popped(h.pops) ==>
                  (multiset(Dropped(h.pops)) + multiset(Flatten(h.mrps))
                   + multiset(Current(s.pc, s.batch, s.packed)))[x] == 1)
  {
    hide Popped, Kept, Dropped, Flatten, Current;
    RunInv(c, run, i);
    var s := run[i];
    DistinctPushes(s);
    PrefixDistinct(Popped(s.hist.pops), s.queue);
    PopsSplit(s.hist.pops);
    forall x | x in Popped(s.hist.pops) ensures multiset(Popped(s.hist.pops))[x] == 1 {
      DistinctCounts(Popped(s.hist.pops), x);
    }
  }

  /** A flag that has not been up has not been read as up. */
  lemma {:induction false} FlushUnread(c: Config, run: seq<State>, i: nat)
    requires WellFormed(c) && IsRun(c, run) && i < |run|
    requires forall j :: 0 <= j < i ==> !run[j].flush
    ensures !run[i].hist.sawFlush
    decreases i
  {
    if i != 0 {
      FlushUnread(c, run, i - 1);
      assert Next(c, run[i - 1], run[i - 1 + 1]);
      var step :| Enabled(run[i - 1], step) && run[i] == Apply(c, run[i - 1], step);
      SawFlushStep(c, run[i - 1], step);
    }
  }

  lemma SawFlushStep(c: Config, s: State, step: Step)
    requires WellFormed(c) && Enabled(s, step)
    ensures Apply(c, s, step).hist.sawFlush ==> s.hist.sawFlush || s.flush
  {
    hide WellFormed, MrpFrame, Raw, Reversed, Wrap64;
  }

  /** As long as no test of line 169 has found `flushBurst()` true, nothing is dropped:
      MRPs, batch and queue in order are everything pushed. */
  lemma NothingDroppedWithoutFlush(c: Config, run: seq<State>, i: nat)
    requires WellFormed(c) && IsRun(c, run) && i < |run| && !run[i].hist.sawFlush
    ensures Dropped(run[i].hist.pops) == []
    ensures var s := run[i];
            Flatten(s.hist.mrps) + Current(s.pc, s.batch, s.packed) + s.queue == s.hist.pushed
  {
    hide Current, Flatten;
    RunInv(c, run, i);
    AllKept(run[i].hist.pops);
  }

  lemma {:induction false} AllKept(ps: seq<Pop>)
    requires Dropped(ps) == []
    ensures Kept(ps) == Popped(ps)
  {
    if |ps| != 0 {
      AllKept(ps[..|ps| - 1]);
    }
  }

  // ----- ownership -----

  lemma PairCounts(d: seq<Header>, i: nat, j: nat)
    requires i < j < |d| && d[i] == d[j]
    ensures multiset(d)[d[i]] >= 2
  {
    assert d == d[..i] + [d[i]] + d[i + 1..j] + [d[j]] + d[j + 1..];
  }

  lemma OwnedOnce(d: seq<Header>, b: seq<Header>, hand: multiset<Header>, all: seq<Header>)
    requires multiset(d) + multiset(b) + hand == multiset(all) && NoDuplicates(all)
    ensures NoDuplicates(d)
    ensures forall h :: h in d ==> h !in b && h !in hand && h in all
  {
    forall h | h in d ensures h !in b && h !in hand && h in all {
      DistinctCounts(all, h);
      assert h in multiset(d) && (h in b ==> h in multiset(b));
    }
    forall i, j | 0 <= i < j < |d| ensures d[i] != d[j] {
      DistinctCounts(all, d[i]);
      if d[i] == d[j] {
        PairCounts(d, i, j);
      }
    }
  }

  /** A trigger header is deleted at most once, never while it is queued, in the
      batch or in the consumer's hands, and once the consumer is back at its outer
      loop every header it popped has been deleted. */
  lemma HeadersDeletedOnce(c: Config, run: seq<State>, i: nat)
    requires WellFormed(c) && IsRun(c, run) && i < |run|
    ensures var s, h := run[i], run[i].hist;
            && NoDuplicates(h.deleted)
            && (forall x :: x in h.deleted ==> x !in s.queue && x !in s.batch && x !in InHand(s.pc))
            && (s.pc.OuterHead? ==> multiset(h.deleted) == multiset(Popped(h.pops)))
  {
    hide Popped, NoDuplicates;
    RunInv(c, run, i);
    var s := run[i];
    DistinctPushes(s);
    PrefixDistinct(Popped(s.hist.pops), s.queue);
    OwnedOnce(s.hist.deleted, s.batch, InHand(s.pc), Popped(s.hist.pops));
  }

  /** No producer still holds a header that has been deleted. */
  lemma HeldHeadersNotDeleted(c: Config, run: seq<State>, i: nat, p: nat)
    requires WellFormed(c) && IsRun(c, run) && i < |run|
    requires p in run[i].producers && run[i].producers[p].Holding?
    ensures run[i].producers[p].header !in run[i].hist.pushed
    ensures run[i].producers[p].header !in run[i].hist.deleted
  {
    hide Popped;
    RunInv(c, run, i);
    var s := run[i];
    var h := s.producers[p].header;
    assert h !in s.hist.pushed;
    assert h in s.hist.deleted ==> h in multiset(s.hist.deleted) && h in multiset(Popped(s.hist.pops));
    assert h in Popped(s.hist.pops) ==> h in Popped(s.hist.pops) + s.queue;
  }

  // ----- the retry loop -----

  /** The retry loop meets an empty queue only when this iteration dropped a header
      after its own test found the queue non-empty. */
  lemma RetryBlocksOnlyAfterDrop(c: Config, run: seq<State>, i: nat)
    requires WellFormed(c) && IsRun(c, run) && i < |run| && run[i].pc.RetryPop?
    ensures run[i].queue == [] ==> run[i].hist.droppedSinceTest > 0
    ensures run[i].hist.droppedSinceTest == 0 ==>
              run[i].queue != [] && ConsumerStep(c, run[i]).pc == Append(run[i].queue[0])
  {
    hide MrpFrame, Raw, Popped;
    RunInv(c, run, i);
  }

  // ----- batches and counters -----

  lemma TimesSuccessor(max: nat, n: nat)
    ensures max * (n + 1) == max * n + max
  {
  }

  lemma {:induction false} FlattenSize(ms: seq<seq<Header>>, max: nat)
    requires MrpSizeInv(max, ms)
    ensures |ms| <= |Flatten(ms)| <= max * |ms|
  {
    if |ms| != 0 {
      var n := |ms| - 1;
      FlattenSize(ms[..n], max);
      TimesSuccessor(max, n);
      assert ms == ms[..n] + [ms[n]];
      FlattenAppended(ms[..n], ms[n]);
      hide Flatten;
    }
  }

  /** At the outer loop head: the batch is empty, the counters are the numbers of
      MRPs and of triggers in them modulo 2^64, an MRP holds 1 to `max` triggers,
      and every endpoint has had one frame per MRP. */
  lemma CountersAtLoopHead(c: Config, run: seq<State>, i: nat)
    requires WellFormed(c) && IsRun(c, run) && i < |run| && run[i].pc.OuterHead?
    ensures var s, h := run[i], run[i].hist;
            && s.batch == []
            && s.mrpsSent == |h.mrps| % 0x1_0000_0000_0000_0000
            && s.triggersSent == |Flatten(h.mrps)| % 0x1_0000_0000_0000_0000
            && |h.mrps| <= |Flatten(h.mrps)| <= c.max * |h.mrps|
            && |h.frames| == |h.mrps| * |c.templates|
            && Flatten(h.mrps) == Kept(h.pops)
  {
    hide Flatten, Kept, Wrap64;
    RunInv(c, run, i);
    Wrap64Is(|run[i].hist.mrps|);
    Wrap64Is(|Flatten(run[i].hist.mrps)|);
    FlattenSize(run[i].hist.mrps, c.max);
  }

  /** At no point does the consumer hold more than `max` headers. */
  lemma BatchBounded(c: Config, run: seq<State>, i: nat)
    requires WellFormed(c) && IsRun(c, run) && i < |run|
    ensures |Current(run[i].pc, run[i].batch, run[i].packed)| <= c.max
    ensures forall j :: 0 <= j < |run[i].hist.mrps| ==> 1 <= |run[i].hist.mrps[j]| <= c.max
  {
    RunInv(c, run, i);
  }

  // ----- what the endpoints receive -----

  /** A receiver that undoes the packing order of each frame and concatenates. */
  function Received(fs: seq<seq<byte>>): seq<Request> {
    if |fs| == 0 then []
    else
      var d := Decode(fs[|fs| - 1]);
      Received(fs[..|fs| - 1]) + if d.Some? then Reversed(d.value.requests) else []
  }

  /** The requests that producers asked for. */
  function Requested(hs: seq<Header>): (rs: seq<Request>)
    ensures |rs| == |hs|
  {
    seq(|hs|, i requires 0 <= i < |hs| => RequestOf(hs[i].event, hs[i].zSuppressed))
  }

  lemma DecodedRaw(hs: seq<Header>)
    ensures Decoded(Raw(hs)) == Requested(hs)
  {
    forall i | 0 <= i < |hs| ensures Decoded(Raw(hs))[i] == Requested(hs)[i] {
      TriggerRoundTrip(hs[i].event, hs[i].zSuppressed);
    }
  }

  /** One MRP: packing empties the batch from the back, so the receiver's reversal
      restores the push order. */
  lemma FrameGivesBatch(t: seq<byte>, m: seq<Header>)
    requires ValidTemplate(t) && |m| <= MAX_COHERENT
    ensures |t| == FRAME_HDR
    ensures var d := Decode(MrpFrame(t, Raw(Reversed(m))));
            d.Some? && Reversed(d.value.requests) == Requested(m)
  {
    hide Decode, MrpFrame;
    FrameRoundTrip(t, Raw(Reversed(m)));
    DecodedRaw(Reversed(m));
    assert Reversed(Requested(Reversed(m))) == Requested(m);
  }

  /** The MRPs small enough for their length fields. */
  function Readable(ms: seq<seq<Header>>): seq<seq<Header>> {
    if |ms| == 0 then []
    else Readable(ms[..|ms| - 1]) + if |ms[|ms| - 1]| <= MAX_COHERENT then [ms[|ms| - 1]] else []
  }

  lemma {:induction false} AllReadable(ms: seq<seq<Header>>)
    requires forall j :: 0 <= j < |ms| ==> |ms[j]| <= MAX_COHERENT
    ensures Readable(ms) == ms
  {
    if |ms| != 0 {
      AllReadable(ms[..|ms| - 1]);
    }
  }

  lemma UnreadableFrame(t: seq<byte>, m: seq<Header>)
    requires ValidTemplate(t) && |m| > MAX_COHERENT
    ensures |t| == FRAME_HDR
    ensures Decode(MrpFrame(t, Raw(Reversed(m)))).None?
  {
    hide Decode, MrpFrame;
    FrameRoundTrip(t, Raw(Reversed(m)));
  }

  lemma RequestedConcat(a: seq<Header>, b: seq<Header>)
    ensures Requested(a + b) == Requested(a) + Requested(b)
  {
  }

  lemma {:induction false} ReceivedOf(t: seq<byte>, ms: seq<seq<Header>>)
    requires ValidTemplate(t) && |t| == FRAME_HDR
    ensures Received(FramesOf(t, ms)) == Requested(Flatten(Readable(ms)))
  {
    hide Decode, MrpFrame, Raw, ValidTemplate, Requested;
    if |ms| == 0 {
      RequestedConcat([], []);
    } else {
      var n := |ms| - 1;
      ReceivedOf(t, ms[..n]);
      assert FramesOf(t, ms)[..n] == FramesOf(t, ms[..n]);
      if |ms[n]| <= MAX_COHERENT {
        FrameGivesBatch(t, ms[n]);
        FlattenAppended(Readable(ms[..n]), ms[n]);
        RequestedConcat(Flatten(Readable(ms[..n])), ms[n]);
      } else {
        UnreadableFrame(t, ms[n]);
        assert Readable(ms) == Readable(ms[..n]);
        assert Received(FramesOf(t, ms)) == Received(FramesOf(t, ms[..n]));
      }
    }
  }

  lemma KeptTriggersReceived(c: Config, s: State, e: nat)
    requires WellFormed(c) && Inv(c, s) && e < |c.templates|
    ensures var sent := SentTo(s.pc, s.hist.mrps, |c.templates|, e);
            && Received(FramesFor(s.hist.frames, e)) == Requested(Flatten(Readable(sent)))
            && ((forall j :: 0 <= j < |s.hist.mrps| ==> |s.hist.mrps[j]| <= MAX_COHERENT) ==>
                  && Readable(sent) == sent
                  && (s.pc.OuterHead? ==> Received(FramesFor(s.hist.frames, e)) == Requested(Kept(s.hist.pops))))
  {
    hide Received, FramesFor, FramesOf, Flatten, Kept, MrpFrame, Requested, ValidTemplate, Readable;
    assert ValidTemplate(c.templates[e]);
    TemplateSize(c.templates[e]);
    var sent := SentTo(s.pc, s.hist.mrps, |c.templates|, e);
    ReceivedOf(c.templates[e], sent);
    if forall j :: 0 <= j < |s.hist.mrps| ==> |s.hist.mrps[j]| <= MAX_COHERENT {
      AllReadable(sent);
      if s.pc.OuterHead? {
        assert Flatten(s.hist.mrps) + [] == Flatten(s.hist.mrps);
      }
    }
  }

  /** End to end over any run and for any MAX: decoding the frames queued for an
      endpoint, undoing the packing order and concatenating gives exactly the triggers
      of the MRPs sealed for it that have at most 5457, in push order and field by
      field. If no MRP is larger, that is, at a loop head, every trigger kept, for all
      endpoints alike. */
  lemma EndpointsReceiveKeptTriggers(c: Config, run: seq<State>, i: nat, e: nat)
    requires WellFormed(c) && IsRun(c, run) && i < |run| && e < |c.templates|
    ensures var s, h := run[i], run[i].hist;
            var sent := SentTo(s.pc, h.mrps, |c.templates|, e);
            && Received(FramesFor(h.frames, e)) == Requested(Flatten(Readable(sent)))
            && ((forall j :: 0 <= j < |h.mrps| ==> |h.mrps[j]| <= MAX_COHERENT) ==>
                  && Readable(sent) == sent
                  && (s.pc.OuterHead? ==> Received(FramesFor(h.frames, e)) == Requested(Kept(h.pops))))
  {
    hide Inv, Received, FramesFor, Flatten, Kept, Requested, Readable, SentTo;
    RunInv(c, run, i);
    KeptTriggersReceived(c, run[i], e);
  }
}
