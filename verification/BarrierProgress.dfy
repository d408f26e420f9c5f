/** Progress of the dissemination barrier when the puts to one slot land in order: slot
    values only grow, PEs stay within one barrier of each other, and once everybody has
    entered a barrier everybody leaves it, whatever the schedule. */
module BarrierProgress {
  import opened Options
  import opened Arith
  import opened BarrierConfig
  import opened Barrier
  import opened Sums

  /** The puts of one slot land in the order they were made. */
  predicate Fifo(steps: seq<Step>) {
    forall j :: 0 <= j < |steps| && steps[j].Land? ==> steps[j].j == 0
  }

  /** The last barrier id for which a PE has made the put of offset `i` in round `r`. */
  function Sent(pe: Pe, i: nat, r: nat): int {
    match pe.pc
    case Idle => pe.id
    case Send(r', i') => if r < r' || (r == r' && i < i') then pe.id else pe.id - 1
    case Recv(r', _) => if r <= r' then pe.id else pe.id - 1
  }

  predicate RealSlot(c: Config, k: Slot)
    requires ValidConfig(c)
  {
    k.dst < c.numPes && 1 <= k.i <= c.n && k.r < c.rounds && Source(c, k.dst, k.i, k.r) != k.dst
  }

  /** What the slot will finally hold. */
  function Newest(s: State, k: Slot): nat {
    var ch := InFlight(s, k);
    if ch == [] then InSlot(s, k) else ch[|ch| - 1]
  }

  predicate Ordered(s: State, k: Slot) {
    var vs := [InSlot(s, k)] + InFlight(s, k);
    forall a, b :: 0 <= a < b < |vs| ==> vs[a] <= vs[b]
  }

  ghost predicate FifoInv(c: Config, s: State)
    requires ValidConfig(c)
  {
    && Wf(c, s)
    && (forall k :: Ordered(s, k))
    && (forall k :: RealSlot(c, k) ==> Newest(s, k) == Sent(s.pes[Source(c, k.dst, k.i, k.r)], k.i, k.r))
  }

  lemma SentMoves(c: Config, pe: Pe, pe': Pe, i: nat, r: nat)
    requires ValidConfig(c) && WfPe(c, pe) && 1 <= i <= c.n && r < c.rounds
    requires || (pe.pc.Idle? && pe' == AfterEnter(c, pe))
             || (pe.pc.Recv? && pe' == AfterPoll(c, pe))
             || (pe.pc.Send? && pe' == AfterPut(c, pe) && !(pe.pc.i == i && pe.pc.r == r))
    ensures Sent(pe', i, r) == Sent(pe, i, r)
  {
  }

  lemma MoveFifoInv(c: Config, s: State, s': State, p: nat)
    requires ValidConfig(c) && FifoInv(c, s) && p < c.numPes && Moved(c, s, s', p)
    requires s'.buf == s.buf && s'.chan == s.chan
    requires s.pes[p].pc.Send? ==>
               Target(c, p, s.pes[p].pc.i, s.pes[p].pc.r) == p
    ensures FifoInv(c, s')
  {
    MovedGrows(c, s, s', p);
    forall k ensures Ordered(s', k) {
      assert Ordered(s, k);
    }
    forall k | RealSlot(c, k)
      ensures Newest(s', k) == Sent(s'.pes[Source(c, k.dst, k.i, k.r)], k.i, k.r)
    {
      if Source(c, k.dst, k.i, k.r) == p {
        SlotHasOneWriter(c, p, k.dst, k.i, k.r);
        SentMoves(c, s.pes[p], s'.pes[p], k.i, k.r);
      }
    }
  }

  lemma PutFifoInv(c: Config, s: State, p: nat)
    requires ValidConfig(c) && FifoInv(c, s) && Enabled(c, s, Put(p))
    ensures FifoInv(c, Apply(c, s, Put(p)))
  {
    var s' := Apply(c, s, Put(p));
    var pe := s.pes[p];
    var k0 := Slot(Target(c, p, pe.pc.i, pe.pc.r), pe.pc.i, pe.pc.r);
    if k0.dst == p {
      MoveFifoInv(c, s, s', p);
    } else {
      MovedGrows(c, s, s', p);
      SlotHasOneWriter(c, p, k0.dst, k0.i, k0.r);
      assert RealSlot(c, k0) && Newest(s, k0) == Sent(pe, k0.i, k0.r) == pe.id - 1;
      forall k ensures Ordered(s', k) {
        assert Ordered(s, k);
        if k == k0 { OrderedAppend(s, s', k, pe.id); }
      }
      forall k | RealSlot(c, k)
        ensures Newest(s', k) == Sent(s'.pes[Source(c, k.dst, k.i, k.r)], k.i, k.r)
      {
        if k != k0 {
          assert InFlight(s', k) == InFlight(s, k);
          if Source(c, k.dst, k.i, k.r) == p {
            SlotHasOneWriter(c, p, k.dst, k.i, k.r);
            SentMoves(c, pe, s'.pes[p], k.i, k.r);
          }
        }
      }
    }
  }

  lemma OrderedAppend(s: State, s': State, k: Slot, v: nat)
    requires Ordered(s, k) && Newest(s, k) <= v
    requires InSlot(s', k) == InSlot(s, k) && InFlight(s', k) == InFlight(s, k) + [v]
    ensures Ordered(s', k)
  {
    var vs := [InSlot(s, k)] + InFlight(s, k);
    var vs' := [InSlot(s', k)] + InFlight(s', k);
    assert vs' == vs + [v] && Newest(s, k) == vs[|vs| - 1];
  }

  lemma OrderedLand(s: State, s': State, k: Slot)
    requires Ordered(s, k) && InFlight(s, k) != []
    requires InSlot(s', k) == InFlight(s, k)[0] && InFlight(s', k) == InFlight(s, k)[1..]
    ensures Ordered(s', k) && Newest(s', k) == Newest(s, k) && InSlot(s', k) >= InSlot(s, k)
  {
    var vs := [InSlot(s, k)] + InFlight(s, k);
    assert [InSlot(s', k)] + InFlight(s', k) == vs[1..];
    assert vs[0] <= vs[1];
  }

  lemma LandFifoInv(c: Config, s: State, k: Slot)
    requires ValidConfig(c) && FifoInv(c, s) && Enabled(c, s, Land(k, 0))
    ensures FifoInv(c, Apply(c, s, Land(k, 0)))
    ensures InSlot(Apply(c, s, Land(k, 0)), k) >= InSlot(s, k)
  {
    var s' := Apply(c, s, Land(k, 0));
    assert Ordered(s, k);
    assert InFlight(s', k) == InFlight(s, k)[1..];
    OrderedLand(s, s', k);
    forall k' ensures Ordered(s', k') && Newest(s', k') == Newest(s, k') {
      if k' != k {
        assert Ordered(s, k');
        assert InFlight(s', k') == InFlight(s, k') && InSlot(s', k') == InSlot(s, k');
      }
    }
  }

  /** In order, every step keeps the invariant and no slot value ever goes down. */
  lemma FifoStep(c: Config, s: State, t: Step)
    requires ValidConfig(c) && FifoInv(c, s) && Enabled(c, s, t) && (t.Land? ==> t.j == 0)
    ensures FifoInv(c, Apply(c, s, t))
    ensures forall k :: InSlot(Apply(c, s, t), k) >= InSlot(s, k)
  {
    match t
    case Enter(p) => MoveFifoInv(c, s, Apply(c, s, t), p);
    case Put(p) => PutFifoInv(c, s, p);
    case Poll(p) => MoveFifoInv(c, s, Apply(c, s, t), p);
    case Land(k, _) => LandFifoInv(c, s, k);
  }

  lemma {:induction false} FifoRunInv(c: Config, steps: seq<Step>)
    requires ValidConfig(c) && Fifo(steps) && Run(c, steps).Some?
    ensures FifoInv(c, Run(c, steps).value)
    decreases |steps|
  {
    if steps != [] {
      FifoRunInv(c, steps[..|steps| - 1]);
      FifoStep(c, Run(c, steps[..|steps| - 1]).value, steps[|steps| - 1]);
    }
  }

  /** PEs of one team are never more than one barrier apart. */
  lemma SkewAtMostOne(c: Config, steps: seq<Step>, p: nat, q: nat)
    requires ValidConfig(c) && Covers(c) && Run(c, steps).Some?
    requires p < c.numPes && q < c.numPes
    ensures var pes := Run(c, steps).value.pes;
            |pes| == c.numPes && pes[p].id <= pes[q].id + 1
  {
    RunInv(c, steps);
    SafeState(c, Run(c, steps).value);
  }

  /** A PE stuck in barrier `b` points to a step, other than entering a barrier, that can
      be taken. */
  lemma {:induction false} Unblock(c: Config, s: State, b: nat, p: nat) returns (t: Step)
    requires ValidConfig(c) && FifoInv(c, s) && p < c.numPes
    requires forall q :: 0 <= q < c.numPes ==> s.pes[q].id >= b
    requires s.pes[p].id == b && !s.pes[p].pc.Idle?
    ensures Enabled(c, s, t) && !t.Enter? && (t.Land? ==> t.j == 0)
    decreases s.pes[p].pc.r
  {
    var pc := s.pes[p].pc;
    var src := if pc.Recv? then Source(c, p, pc.i, pc.r) else p;
    var k := Slot(p, pc.i, pc.r);
    if pc.Send? {
      t := Put(p);
    } else if src == p || InSlot(s, k) >= b {
      t := Poll(p);
    } else if InFlight(s, k) != [] {
      t := Land(k, 0);
    } else {
      assert RealSlot(c, k) && Newest(s, k) == Sent(s.pes[src], pc.i, pc.r) < b;
      if s.pes[src].pc.Send? {
        t := Put(src);
      } else {
        t := Unblock(c, s, b, src);
      }
    }
  }

  // ---------------------------------------------------------------- termination

  /** Puts and polls left to a PE before it leaves the barrier it is in. */
  function Remaining(c: Config, pe: Pe): int {
    match pe.pc
    case Idle => 0
    case Send(r, i) => (c.rounds - 1 - r) * (2 * c.n) + c.n + (c.n - i + 1)
    case Recv(r, i) => (c.rounds - 1 - r) * (2 * c.n) + (c.n - i + 1)
  }

  lemma RemainingDrops(c: Config, pe: Pe)
    requires ValidConfig(c) && WfPe(c, pe) && !pe.pc.Idle?
    ensures Remaining(c, if pe.pc.Send? then AfterPut(c, pe) else AfterPoll(c, pe)) == Remaining(c, pe) - 1
    ensures Remaining(c, pe) >= 1
  {
    MulMonotone(0, c.rounds - 1 - pe.pc.r, 0, 2 * c.n);
    assert (c.rounds - 1 - pe.pc.r) * (2 * c.n) == (c.rounds - 1 - pe.pc.r - 1) * (2 * c.n) + 2 * c.n;
  }

  function Works(c: Config, pes: seq<Pe>): seq<nat> {
    seq(|pes|, i requires 0 <= i < |pes| => if Remaining(c, pes[i]) >= 0 then 2 * Remaining(c, pes[i]) else 0)
  }

  ghost function Pending(s: State): nat {
    SetSum(s.chan.Keys, k => |InFlight(s, k)|)
  }

  ghost function Measure(c: Config, s: State): nat {
    Sum(Works(c, s.pes)) + Pending(s)
  }

  lemma PendingUpdate(s: State, s': State, k: Slot)
    requires s'.chan == s.chan[k := InFlight(s', k)]
    ensures Pending(s') == Pending(s) - |InFlight(s, k)| + |InFlight(s', k)|
  {
    var f, f' := (k: Slot) => |InFlight(s, k)|, (k: Slot) => |InFlight(s', k)|;
    var rest := s.chan.Keys - {k};
    assert s'.chan.Keys == rest + {k};
    SetSumAdd(rest, f', k);
    SetSumCongruence(rest, f, f');
    if k in s.chan {
      assert s.chan.Keys == rest + {k};
      SetSumAdd(rest, f, k);
    } else {
      assert s.chan.Keys == rest;
    }
  }

  lemma WorkDrops(c: Config, s: State, s': State, p: nat)
    requires ValidConfig(c) && Wf(c, s) && p < c.numPes && !s.pes[p].pc.Idle?
    requires s'.pes == s.pes[p := if s.pes[p].pc.Send? then AfterPut(c, s.pes[p]) else AfterPoll(c, s.pes[p])]
    ensures Sum(Works(c, s'.pes)) == Sum(Works(c, s.pes)) - 2
  {
    RemainingDrops(c, s.pes[p]);
    var v := Works(c, s'.pes)[p];
    assert Works(c, s'.pes) == Works(c, s.pes)[p := v];
    SumUpdate(Works(c, s.pes), p, v);
  }

  /** Every step other than entering a barrier uses up some of a fixed supply. */
  lemma StepUsesMeasure(c: Config, s: State, t: Step)
    requires ValidConfig(c) && Wf(c, s) && Enabled(c, s, t) && !t.Enter?
    ensures Measure(c, Apply(c, s, t)) < Measure(c, s)
  {
    var s' := Apply(c, s, t);
    match t
    case Put(p) =>
      WorkDrops(c, s, s', p);
      if s'.chan != s.chan {
        PendingUpdate(s, s', Slot(Target(c, p, s.pes[p].pc.i, s.pes[p].pc.r), s.pes[p].pc.i, s.pes[p].pc.r));
      } else {
        SetSumCongruence(s.chan.Keys, k => |InFlight(s, k)|, k => |InFlight(s', k)|);
      }
    case Poll(p) =>
      WorkDrops(c, s, s', p);
      SetSumCongruence(s.chan.Keys, k => |InFlight(s, k)|, k => |InFlight(s', k)|);
    case Land(k, j) =>
      PendingUpdate(s, s', k);
  }

  predicate NoEntry(steps: seq<Step>) {
    forall j :: 0 <= j < |steps| ==> !steps[j].Enter?
  }

  lemma {:induction false} ContinuationBounded(c: Config, before: seq<Step>, more: seq<Step>)
    requires ValidConfig(c) && Run(c, before).Some? && Run(c, before + more).Some? && NoEntry(more)
    ensures |more| + Measure(c, Run(c, before + more).value) <= Measure(c, Run(c, before).value)
    decreases |more|
  {
    if more == [] {
      assert before + more == before;
    } else {
      var init := more[..|more| - 1];
      assert (before + more)[..|before + more| - 1] == before + init;
      ContinuationBounded(c, before, init);
      RunInv(c, before + init);
      StepUsesMeasure(c, Run(c, before + init).value, more[|more| - 1]);
    }
  }

  lemma {:induction false} IdsKeep(c: Config, before: seq<Step>, more: seq<Step>)
    requires ValidConfig(c) && Run(c, before).Some? && Run(c, before + more).Some?
    ensures var pes, pes' := Run(c, before).value.pes, Run(c, before + more).value.pes;
            |pes'| == |pes| && forall q :: 0 <= q < |pes| ==> pes'[q].id >= pes[q].id
    decreases |more|
  {
    if more == [] {
      assert before + more == before;
    } else {
      var init := more[..|more| - 1];
      assert (before + more)[..|before + more| - 1] == before + init;
      IdsKeep(c, before, init);
    }
  }

  /** Once all PEs have entered barrier `b`, any continuation in which nobody enters a new
      barrier is bounded in advance, and one that cannot be prolonged has everybody out of
      barrier `b`. */
  lemma BarrierCompletes(c: Config, before: seq<Step>, more: seq<Step>, b: nat)
    requires ValidConfig(c) && Fifo(before + more) && NoEntry(more)
    requires Run(c, before).Some? && Run(c, before + more).Some?
    requires forall q :: 0 <= q < |Run(c, before).value.pes| ==> Run(c, before).value.pes[q].id >= b
    ensures |more| <= Measure(c, Run(c, before).value)
    ensures var s := Run(c, before + more).value;
            || (exists t :: Enabled(c, s, t) && !t.Enter? && (t.Land? ==> t.j == 0))
            || (forall q :: 0 <= q < |s.pes| ==> Left(s.pes[q]) >= b)
  {
    var s := Run(c, before + more).value;
    ContinuationBounded(c, before, more);
    FifoRunInv(c, before + more);
    IdsKeep(c, before, more);
    if p :| 0 <= p < |s.pes| && Left(s.pes[p]) < b {
      var t := Unblock(c, s, b, p);
    }
  }
}
