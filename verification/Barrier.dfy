/** The dissemination barrier as a transition system over all PEs of a team: the nested
    round loops of every PE, one remote put or one slot poll per step, and the puts in
    flight towards the slots. */
module Barrier {
  import opened Options
  import opened Arith
  import opened BarrierConfig

  /** Where a PE is: outside the barrier, about to put to offset `i` of round `r`, or
      waiting for the slot of offset `i` of round `r`. */
  datatype Pc = Idle | Send(r: nat, i: nat) | Recv(r: nat, i: nat)

  /** `id` is the last id drawn from `barrier_cnt` (which then holds `id + 1`); 0 before
      the first barrier. It is also the number of barriers the PE has entered. */
  datatype Pe = Pe(id: nat, pc: Pc)

  /** Slot `r` of `barrier_buf[i - 1]` on PE `dst`. */
  datatype Slot = Slot(dst: nat, i: nat, r: nat)

  /** `buf` holds what has landed in the slots, `chan` the puts still in flight. */
  datatype State = State(pes: seq<Pe>, buf: map<Slot, nat>, chan: map<Slot, seq<nat>>)

  datatype Step = Enter(p: nat) | Put(p: nat) | Poll(p: nat) | Land(k: Slot, j: nat)

  function InSlot(s: State, k: Slot): nat {
    if k in s.buf then s.buf[k] else 0
  }

  function InFlight(s: State, k: Slot): seq<nat> {
    if k in s.chan then s.chan[k] else []
  }

  function Init(c: Config): State {
    State(seq(c.numPes, _ => Pe(0, Idle)), map[], map[])
  }

  function AfterEnter(c: Config, pe: Pe): Pe {
    Pe(pe.id + 1, if c.rounds == 0 then Idle else Send(0, 1))
  }

  function AfterPut(c: Config, pe: Pe): Pe
    requires pe.pc.Send?
  {
    pe.(pc := if pe.pc.i < c.n then Send(pe.pc.r, pe.pc.i + 1) else Recv(pe.pc.r, 1))
  }

  function AfterPoll(c: Config, pe: Pe): Pe
    requires pe.pc.Recv?
  {
    pe.(pc := if pe.pc.i < c.n then Recv(pe.pc.r, pe.pc.i + 1)
              else if pe.pc.r + 1 < c.rounds then Send(pe.pc.r + 1, 1)
              else Idle)
  }

  predicate Enabled(c: Config, s: State, t: Step)
    requires ValidConfig(c)
  {
    match t
    case Enter(p) => p < |s.pes| && s.pes[p].pc.Idle?
    case Put(p) => p < |s.pes| && s.pes[p].pc.Send?
    case Poll(p) =>
      && p < |s.pes| && s.pes[p].pc.Recv?
      && var pc := s.pes[p].pc;
         (Source(c, p, pc.i, pc.r) == p || InSlot(s, Slot(p, pc.i, pc.r)) >= s.pes[p].id)
    case Land(k, j) => j < |InFlight(s, k)|
  }

  function Apply(c: Config, s: State, t: Step): State
    requires ValidConfig(c) && Enabled(c, s, t)
  {
    match t
    case Enter(p) => s.(pes := s.pes[p := AfterEnter(c, s.pes[p])])
    case Put(p) =>
      var pe := s.pes[p];
      var q := Target(c, p, pe.pc.i, pe.pc.r);
      var k := Slot(q, pe.pc.i, pe.pc.r);
      var s' := s.(pes := s.pes[p := AfterPut(c, pe)]);
      if q == p then s' else s'.(chan := s.chan[k := InFlight(s, k) + [pe.id]])
    case Poll(p) => s.(pes := s.pes[p := AfterPoll(c, s.pes[p])])
    case Land(k, j) =>
      var ch := InFlight(s, k);
      s.(buf := s.buf[k := ch[j]], chan := s.chan[k := ch[..j] + ch[j + 1..]])
  }

  /** The state after a whole run, or `None` when some step of it was not possible. */
  function Run(c: Config, steps: seq<Step>): Option<State>
    requires ValidConfig(c)
  {
    if steps == [] then Some(Init(c))
    else
      var prefix := Run(c, steps[..|steps| - 1]);
      var t := steps[|steps| - 1];
      if prefix.Some? && Enabled(c, prefix.value, t) then Some(Apply(c, prefix.value, t)) else None
  }

  lemma RunExtend(c: Config, steps: seq<Step>, t: Step)
    requires ValidConfig(c) && Run(c, steps).Some? && Enabled(c, Run(c, steps).value, t)
    ensures Run(c, steps + [t]) == Some(Apply(c, Run(c, steps).value, t))
  {
    assert (steps + [t])[..|steps + [t]| - 1] == steps;
  }

  /** How many barriers a PE has completed. */
  function Left(pe: Pe): int {
    if pe.pc.Idle? then pe.id else pe.id - 1
  }

  // ---------------------------------------------------------------- safety

  /** How far back along the ring a PE can vouch, from its position in the round loops,
      that everybody has entered barrier `b`. */
  function Horizon(c: Config, pe: Pe, b: nat): nat {
    if b <= Left(pe) then Pow(c.n + 1, c.rounds)
    else if b != pe.id then 0
    else match pe.pc
      case Idle => 0
      case Send(r, _) => Pow(c.n + 1, r)
      case Recv(r, i) => i * Pow(c.n + 1, r)
  }

  predicate WfPe(c: Config, pe: Pe) {
    match pe.pc
    case Idle => true
    case Send(r, i) => pe.id >= 1 && r < c.rounds && 1 <= i <= c.n
    case Recv(r, i) => pe.id >= 1 && r < c.rounds && 1 <= i <= c.n
  }

  predicate Wf(c: Config, s: State) {
    && |s.pes| == c.numPes
    && forall p :: 0 <= p < |s.pes| ==> WfPe(c, s.pes[p])
  }

  /** The PE `d` places before `p` has entered barrier `b`. */
  predicate Knows(c: Config, s: State, p: nat, b: nat, d: nat)
    requires ValidConfig(c) && Wf(c, s)
  {
    s.pes[Back(p, d, c.numPes)].id >= b
  }

  ghost predicate KnowledgeInv(c: Config, s: State)
    requires ValidConfig(c) && Wf(c, s)
  {
    forall p, b, d :: 0 <= p < c.numPes && b >= 1 && 0 <= d < Horizon(c, s.pes[p], b) ==> Knows(c, s, p, b, d)
  }

  /** A value of slot `k` was put by its writer after that writer reached round `k.r`. */
  predicate Genuine(c: Config, s: State, k: Slot, v: nat)
    requires ValidConfig(c) && Wf(c, s)
  {
    v >= 1 ==> Horizon(c, s.pes[Source(c, k.dst, k.i, k.r)], v) >= Pow(c.n + 1, k.r)
  }

  ghost predicate ValueInv(c: Config, s: State)
    requires ValidConfig(c) && Wf(c, s)
  {
    && (forall k :: Genuine(c, s, k, InSlot(s, k)))
    && (forall k, j :: 0 <= j < |InFlight(s, k)| ==> Genuine(c, s, k, InFlight(s, k)[j]))
  }

  ghost predicate Inv(c: Config, s: State)
    requires ValidConfig(c)
  {
    Wf(c, s) && KnowledgeInv(c, s) && ValueInv(c, s)
  }

  lemma InitInv(c: Config)
    requires ValidConfig(c)
    ensures Inv(c, Init(c))
  {
  }

  /** One PE moving on from its place never retracts what it, or anybody, vouches for. */
  lemma HorizonGrows(c: Config, pe: Pe, pe': Pe, b: nat)
    requires ValidConfig(c) && WfPe(c, pe) && b >= 1
    requires || (pe.pc.Idle? && pe' == AfterEnter(c, pe))
             || (pe.pc.Send? && pe' == AfterPut(c, pe))
             || (pe.pc.Recv? && pe' == AfterPoll(c, pe))
    ensures WfPe(c, pe') && pe'.id >= pe.id
    ensures Horizon(c, pe', b) >= Horizon(c, pe, b)
    ensures pe.pc.Send? ==> Horizon(c, pe', b) == Horizon(c, pe, b)
  {
    if pe.pc.Recv? {
      var s := Pow(c.n + 1, pe.pc.r);
      assert (c.n + 1) * s == Pow(c.n + 1, pe.pc.r + 1);
      MulMonotone(pe.pc.i, c.n + 1, s, s);
      MulMonotone(pe.pc.i, pe.pc.i + 1, s, s);
      PowMonotone(c.n + 1, pe.pc.r + 1, c.rounds);
    }
  }

  lemma GenuineGrows(c: Config, s: State, s': State, k: Slot, v: nat)
    requires ValidConfig(c) && Wf(c, s) && Wf(c, s')
    requires forall p, b {:trigger Horizon(c, s'.pes[p], b)} ::
               0 <= p < c.numPes && b >= 1 ==> Horizon(c, s'.pes[p], b) >= Horizon(c, s.pes[p], b)
    requires Genuine(c, s, k, v)
    ensures Genuine(c, s', k, v)
  {
  }

  ghost predicate Moved(c: Config, s: State, s': State, p: nat)
    requires ValidConfig(c) && Wf(c, s) && p < c.numPes
  {
    && |s'.pes| == |s.pes| && s'.pes == s.pes[p := s'.pes[p]]
    && var pe, pe' := s.pes[p], s'.pes[p];
       || (pe.pc.Idle? && pe' == AfterEnter(c, pe))
       || (pe.pc.Send? && pe' == AfterPut(c, pe))
       || (pe.pc.Recv? && pe' == AfterPoll(c, pe))
  }

  lemma MovedGrows(c: Config, s: State, s': State, p: nat)
    requires ValidConfig(c) && Wf(c, s) && p < c.numPes && Moved(c, s, s', p)
    ensures Wf(c, s')
    ensures forall q :: 0 <= q < c.numPes ==> s'.pes[q].id >= s.pes[q].id
    ensures forall q, b {:trigger Horizon(c, s'.pes[q], b)} ::
              0 <= q < c.numPes && b >= 1 ==> Horizon(c, s'.pes[q], b) >= Horizon(c, s.pes[q], b)
  {
    HorizonGrows(c, s.pes[p], s'.pes[p], 1);
    forall q, b | 0 <= q < c.numPes && b >= 1
      ensures Horizon(c, s'.pes[q], b) >= Horizon(c, s.pes[q], b)
    {
      if q == p { HorizonGrows(c, s.pes[p], s'.pes[p], b); }
    }
  }

  lemma ValueInvGrows(c: Config, s: State, s': State, p: nat)
    requires ValidConfig(c) && Inv(c, s) && p < c.numPes && Moved(c, s, s', p)
    requires s'.buf == s.buf && s'.chan == s.chan
    ensures Wf(c, s') && ValueInv(c, s')
  {
    MovedGrows(c, s, s', p);
    forall k ensures Genuine(c, s', k, InSlot(s', k)) {
      GenuineGrows(c, s, s', k, InSlot(s, k));
    }
    forall k, j | 0 <= j < |InFlight(s', k)| ensures Genuine(c, s', k, InFlight(s', k)[j]) {
      GenuineGrows(c, s, s', k, InFlight(s, k)[j]);
    }
  }

  lemma EnterInv(c: Config, s: State, p: nat)
    requires ValidConfig(c) && Inv(c, s) && Enabled(c, s, Enter(p))
    ensures Inv(c, Apply(c, s, Enter(p)))
  {
    var s' := Apply(c, s, Enter(p));
    ValueInvGrows(c, s, s', p);
    MovedGrows(c, s, s', p);
    BackZero(p, c.numPes);
    forall q, b, d | 0 <= q < c.numPes && b >= 1 && 0 <= d < Horizon(c, s'.pes[q], b)
      ensures Knows(c, s', q, b, d)
    {
      if q == p && b == s'.pes[p].id {
        assert d == 0;
      } else {
        assert Knows(c, s, q, b, d);
      }
    }
  }

  lemma PutInv(c: Config, s: State, p: nat)
    requires ValidConfig(c) && Inv(c, s) && Enabled(c, s, Put(p))
    ensures Inv(c, Apply(c, s, Put(p)))
  {
    var s' := Apply(c, s, Put(p));
    var pe := s.pes[p];
    var k0 := Slot(Target(c, p, pe.pc.i, pe.pc.r), pe.pc.i, pe.pc.r);
    MovedGrows(c, s, s', p);
    forall q, b, d | 0 <= q < c.numPes && b >= 1 && 0 <= d < Horizon(c, s'.pes[q], b)
      ensures Knows(c, s', q, b, d)
    {
      if q == p { HorizonGrows(c, pe, s'.pes[p], b); }
      assert Knows(c, s, q, b, d);
    }
    forall k ensures Genuine(c, s', k, InSlot(s', k)) {
      GenuineGrows(c, s, s', k, InSlot(s, k));
    }
    forall k, j | 0 <= j < |InFlight(s', k)| ensures Genuine(c, s', k, InFlight(s', k)[j]) {
      if j < |InFlight(s, k)| {
        GenuineGrows(c, s, s', k, InFlight(s, k)[j]);
      } else {
        SlotHasOneWriter(c, p, k0.dst, k0.i, k0.r);
        HorizonGrows(c, pe, s'.pes[p], pe.id);
      }
    }
  }

  /** What a passed poll teaches: everybody within one more stride has entered. */
  lemma PollExtends(c: Config, s: State, p: nat, d: nat)
    requires ValidConfig(c) && Inv(c, s) && Enabled(c, s, Poll(p))
    requires var pc := s.pes[p].pc;
             var stride := Pow(c.n + 1, pc.r);
             pc.i * stride <= d < (pc.i + 1) * stride
    ensures Knows(c, s, p, s.pes[p].id, d)
  {
    var pe := s.pes[p];
    var stride := Pow(c.n + 1, pe.pc.r);
    var d' := d - pe.pc.i * stride;
    var src := Source(c, p, pe.pc.i, pe.pc.r);
    BackBack(p, pe.pc.i * stride, d', c.numPes);
    if src == p {
      MulMonotone(1, pe.pc.i, stride, stride);
      assert Knows(c, s, p, pe.id, d');
    } else {
      var k := Slot(p, pe.pc.i, pe.pc.r);
      assert Genuine(c, s, k, InSlot(s, k));
      PowMonotone(c.n + 1, pe.pc.r, c.rounds);
      PowPositive(c.n + 1, pe.pc.r);
      assert Horizon(c, s.pes[src], pe.id) >= stride;
      assert Knows(c, s, src, pe.id, d');
    }
  }

  lemma PollInv(c: Config, s: State, p: nat)
    requires ValidConfig(c) && Inv(c, s) && Enabled(c, s, Poll(p))
    ensures Inv(c, Apply(c, s, Poll(p)))
  {
    var s' := Apply(c, s, Poll(p));
    var pe := s.pes[p];
    var stride := Pow(c.n + 1, pe.pc.r);
    ValueInvGrows(c, s, s', p);
    MovedGrows(c, s, s', p);
    assert (c.n + 1) * stride == Pow(c.n + 1, pe.pc.r + 1);
    forall q, b, d | 0 <= q < c.numPes && b >= 1 && 0 <= d < Horizon(c, s'.pes[q], b)
      ensures Knows(c, s', q, b, d)
    {
      if q == p && b == pe.id && d >= pe.pc.i * stride {
        PollExtends(c, s, p, d);
      } else {
        assert Knows(c, s, q, b, d);
      }
    }
  }

  lemma LandInv(c: Config, s: State, k: Slot, j: nat)
    requires ValidConfig(c) && Inv(c, s) && Enabled(c, s, Land(k, j))
    ensures Inv(c, Apply(c, s, Land(k, j)))
  {
    var s' := Apply(c, s, Land(k, j));
    forall q, b, d | 0 <= q < c.numPes && b >= 1 && 0 <= d < Horizon(c, s'.pes[q], b)
      ensures Knows(c, s', q, b, d)
    {
      assert Knows(c, s, q, b, d);
    }
    forall k' ensures Genuine(c, s', k', InSlot(s', k')) {
      assert Genuine(c, s, k', InSlot(s, k'));
      assert Genuine(c, s, k, InFlight(s, k)[j]);
    }
    forall k', j' | 0 <= j' < |InFlight(s', k')| ensures Genuine(c, s', k', InFlight(s', k')[j']) {
      var j'' := if k' == k && j' >= j then j' + 1 else j';
      assert Genuine(c, s, k', InFlight(s, k')[j'']);
    }
  }

  lemma {:induction false} RunInv(c: Config, steps: seq<Step>)
    requires ValidConfig(c) && Run(c, steps).Some?
    ensures Inv(c, Run(c, steps).value)
    decreases |steps|
  {
    if steps == [] {
      InitInv(c);
    } else {
      RunInv(c, steps[..|steps| - 1]);
      var s := Run(c, steps[..|steps| - 1]).value;
      match steps[|steps| - 1]
      case Enter(p) => EnterInv(c, s, p);
      case Put(p) => PutInv(c, s, p);
      case Poll(p) => PollInv(c, s, p);
      case Land(k, j) => LandInv(c, s, k, j);
    }
  }

  /** Nobody has left a barrier that somebody has yet to enter. */
  ghost predicate Synchronised(s: State) {
    forall p, q :: 0 <= p < |s.pes| && 0 <= q < |s.pes| ==> Left(s.pes[p]) <= s.pes[q].id
  }

  lemma SafeState(c: Config, s: State)
    requires ValidConfig(c) && Covers(c) && Inv(c, s)
    ensures Synchronised(s)
  {
    forall p, q | 0 <= p < |s.pes| && 0 <= q < |s.pes|
      ensures Left(s.pes[p]) <= s.pes[q].id
    {
      var b := Left(s.pes[p]);
      if b >= 1 {
        var d := Back(p, q, c.numPes);
        assert Knows(c, s, p, b, d);
        BackOfBack(p, q, c.numPes);
      }
    }
  }

  lemma BackOfBack(p: nat, q: nat, m: nat)
    requires p < m && q < m
    ensures Back(p, Back(p, q, m), m) == q
  {
    if p >= q {
      DivModUnique(p - q, 0, p - q, m);
      BackZero(q, m);
    } else {
      DivModUnique(p - q, -1, p - q + m, m);
      DivModUnique(q - m, -1, q, m);
    }
  }
}
