/** The reach condition is not only enough for the barrier to be safe, it is needed: when
    the rounds do not reach everybody, a run is built in which PE 0 leaves the first
    barrier while another PE has never entered it. */
module BarrierExact {
  import opened Options
  import opened Arith
  import opened BarrierConfig
  import opened Barrier

  ghost predicate AlwaysSafe(c: Config)
    requires ValidConfig(c)
  {
    forall steps :: Run(c, steps).Some? ==> Synchronised(Run(c, steps).value)
  }

  ghost predicate Reachable(c: Config, s: State)
    requires ValidConfig(c)
  {
    exists steps :: Run(c, steps) == Some(s)
  }

  lemma ReachInit(c: Config)
    requires ValidConfig(c)
    ensures Reachable(c, Init(c))
  {
    assert Run(c, []) == Some(Init(c));
  }

  lemma ReachStep(c: Config, s: State, t: Step)
    requires ValidConfig(c) && Reachable(c, s) && Enabled(c, s, t)
    ensures Reachable(c, Apply(c, s, t))
  {
    var steps :| Run(c, steps) == Some(s);
    RunExtend(c, steps, t);
  }

  ghost predicate Quiet(s: State) {
    forall k :: InFlight(s, k) == []
  }

  /** The PE `d` places before PE 0. */
  function At(d: nat, m: nat): (p: nat)
    requires d < m
    ensures p < m
  {
    if d == 0 then 0 else m - d
  }

  lemma AtBack(a: nat, b: nat, m: nat)
    requires a + b < m
    ensures Back(At(a, m), b, m) == At(a + b, m)
  {
    if a == 0 && b > 0 {
      DivModUnique(0 - b, 0 - 1, m - b, m);
    } else {
      DivModUnique(At(a + b, m), 0, At(a + b, m), m);
    }
  }

  /** The PEs from `lo` to `hi` places before PE 0 are all in state `pe`. */
  ghost predicate Arc(pes: seq<Pe>, lo: nat, hi: nat, pe: Pe)
    requires hi <= |pes|
  {
    forall e :: lo <= e < hi ==> pes[At(e, |pes|)] == pe
  }

  lemma ArcUpdate(pes: seq<Pe>, lo: nat, hi: nat, pe: Pe, d: nat, pe': Pe)
    requires hi <= |pes| && d < |pes| && Arc(pes, lo, hi, pe) && !(lo <= d < hi)
    ensures Arc(pes[At(d, |pes|) := pe'], lo, hi, pe)
  {
  }

  lemma PutAndLand(c: Config, s: State, p: nat) returns (s': State)
    requires ValidConfig(c) && Reachable(c, s) && Quiet(s)
    requires p < |s.pes| && s.pes[p].pc.Send?
    requires Target(c, p, s.pes[p].pc.i, s.pes[p].pc.r) != p
    ensures Reachable(c, s') && Quiet(s')
    ensures s'.pes == s.pes[p := AfterPut(c, s.pes[p])]
    ensures var pc := s.pes[p].pc;
            s'.buf == s.buf[Slot(Target(c, p, pc.i, pc.r), pc.i, pc.r) := s.pes[p].id]
  {
    var pc := s.pes[p].pc;
    var k := Slot(Target(c, p, pc.i, pc.r), pc.i, pc.r);
    var s1 := Apply(c, s, Put(p));
    ReachStep(c, s, Put(p));
    assert InFlight(s1, k) == [s.pes[p].id];
    s' := Apply(c, s1, Land(k, 0));
    ReachStep(c, s1, Land(k, 0));
    forall k' ensures InFlight(s', k') == [] {
      if k' != k { assert InFlight(s1, k') == InFlight(s, k'); }
    }
  }

  /** Slots already filled stay filled. */
  ghost predicate Fuller(s: State, s': State) {
    forall k :: InSlot(s, k) >= 1 ==> InSlot(s', k) >= 1
  }

  /** The slots PE `p` puts to in round `r`, up to offset `n`, are filled. */
  ghost predicate PutDone(c: Config, s: State, p: nat, r: nat, n: nat)
    requires ValidConfig(c)
  {
    forall i :: 1 <= i <= n ==> InSlot(s, Slot(Target(c, p, i, r), i, r)) >= 1
  }

  lemma NoSelfPut(c: Config, p: nat, i: nat, r: nat)
    requires ValidConfig(c) && p < c.numPes && 1 <= i <= c.n
    requires c.n * Pow(c.n + 1, r) < c.numPes
    ensures Target(c, p, i, r) != p
  {
    PowPositive(c.n + 1, r);
    MulMonotone(1, i, 1, Pow(c.n + 1, r));
    MulMonotone(i, c.n, Pow(c.n + 1, r), Pow(c.n + 1, r));
    SlotHasOneWriter(c, p, Target(c, p, i, r), i, r);
    if Target(c, p, i, r) == p {
      BackDistinct(p, i * Pow(c.n + 1, r), c.numPes);
    }
  }

  /** All puts of round `r` by a PE of the first barrier, each landing at once. */
  lemma {:induction false} PutsOfRound(c: Config, s: State, p: nat, i: nat, r: nat) returns (s': State)
    requires ValidConfig(c) && Reachable(c, s) && Quiet(s)
    requires p < |s.pes| == c.numPes && 1 <= i <= c.n && s.pes[p] == Pe(1, Send(r, i))
    requires c.n * Pow(c.n + 1, r) < c.numPes
    requires PutDone(c, s, p, r, i - 1)
    ensures Reachable(c, s') && Quiet(s') && Fuller(s, s') && PutDone(c, s', p, r, c.n)
    ensures s'.pes == s.pes[p := Pe(1, Recv(r, 1))]
    decreases c.n - i
  {
    hide Pow, Reachable;
    NoSelfPut(c, p, i, r);
    s' := PutAndLand(c, s, p);
    assert PutDone(c, s', p, r, i);
    if i < c.n {
      s' := PutsOfRound(c, s', p, i + 1, r);
    }
  }

  /** All polls of round `r` by a PE of the first barrier whose slots are filled. */
  lemma {:induction false} PollsOfRound(c: Config, s: State, p: nat, i: nat, r: nat) returns (s': State)
    requires ValidConfig(c) && Reachable(c, s)
    requires p < |s.pes| == c.numPes && 1 <= i <= c.n && s.pes[p] == Pe(1, Recv(r, i))
    requires forall j :: 1 <= j <= c.n ==> InSlot(s, Slot(p, j, r)) >= 1
    ensures Reachable(c, s')
    ensures s' == s.(pes := s.pes[p := Pe(1, if r + 1 < c.rounds then Send(r + 1, 1) else Idle)])
    decreases c.n - i
  {
    hide Pow, Source, Reachable;
    assert InSlot(s, Slot(p, i, r)) >= 1;
    s' := Apply(c, s, Poll(p));
    ReachStep(c, s, Poll(p));
    if i < c.n {
      s' := PollsOfRound(c, s', p, i + 1, r);
    }
  }

  /** After `r` rounds, with `stride == (n+1)^r`, the PEs up to `reach - stride` places
      before PE 0 have gone through `r` rounds of barrier 1, and the PE `reach` places
      before it has not entered. */
  ghost predicate Staged(c: Config, s: State, r: nat, stride: nat, reach: nat) {
    && 1 <= stride <= reach < c.numPes && |s.pes| == c.numPes && Quiet(s)
    && s.pes[At(reach, c.numPes)].id == 0
    && Arc(s.pes, 0, reach - stride + 1, Pe(1, if r < c.rounds then Send(r, 1) else Idle))
  }

  lemma {:induction false} Enters(c: Config, d: nat) returns (s: State)
    requires ValidConfig(c) && d < c.numPes
    ensures Reachable(c, s) && Quiet(s) && |s.pes| == c.numPes
    ensures Arc(s.pes, 0, d, Pe(1, if 0 < c.rounds then Send(0, 1) else Idle))
    ensures Arc(s.pes, d, c.numPes, Pe(0, Idle))
  {
    if d == 0 {
      s := Init(c);
      ReachInit(c);
    } else {
      var s0 := Enters(c, d - 1);
      var p := At(d - 1, c.numPes);
      assert s0.pes[p] == Pe(0, Idle);
      ReachStep(c, s0, Enter(p));
      s := Apply(c, s0, Enter(p));
      assert forall k :: InFlight(s, k) == InFlight(s0, k);
      ArcUpdate(s0.pes, 0, d - 1, Pe(1, if 0 < c.rounds then Send(0, 1) else Idle), d - 1, s.pes[p]);
    }
  }

  /** The puts of round `r` of the PEs up to `d` places before PE 0. */
  lemma {:induction false} StagePuts(c: Config, s: State, r: nat, top: nat, d: nat, far: nat) returns (s': State)
    requires ValidConfig(c) && Reachable(c, s) && Quiet(s) && |s.pes| == c.numPes
    requires c.n * Pow(c.n + 1, r) < c.numPes
    requires d <= top <= far < c.numPes
    requires Arc(s.pes, 0, top, Pe(1, Send(r, 1))) && s.pes[At(far, c.numPes)].id == 0
    ensures Reachable(c, s') && Quiet(s') && |s'.pes| == c.numPes && s'.pes[At(far, c.numPes)].id == 0
    ensures Arc(s'.pes, 0, d, Pe(1, Recv(r, 1))) && Arc(s'.pes, d, top, Pe(1, Send(r, 1)))
    ensures forall e :: 0 <= e < d ==> PutDone(c, s', At(e, c.numPes), r, c.n)
  {
    hide Pow, Reachable, PutDone, Quiet;
    if d == 0 {
      s' := s;
    } else {
      var s0 := StagePuts(c, s, r, top, d - 1, far);
      var p := At(d - 1, c.numPes);
      assert s0.pes[p] == Pe(1, Send(r, 1));
      NonePut(c, s0, p, r);
      s' := PutsOfRound(c, s0, p, 1, r);
      ArcUpdate(s0.pes, 0, d - 1, Pe(1, Recv(r, 1)), d - 1, s'.pes[p]);
      forall e | 0 <= e < d ensures PutDone(c, s', At(e, c.numPes), r, c.n) {
        if e < d - 1 { FullerPutDone(c, s0, s', At(e, c.numPes), r); }
      }
    }
  }

  lemma NonePut(c: Config, s: State, p: nat, r: nat)
    requires ValidConfig(c)
    ensures PutDone(c, s, p, r, 0)
  {
  }

  lemma FullerPutDone(c: Config, s: State, s': State, p: nat, r: nat)
    requires ValidConfig(c) && Fuller(s, s') && PutDone(c, s, p, r, c.n)
    ensures PutDone(c, s', p, r, c.n)
  {
  }

  /** The polls of round `r` of the PEs up to `d` places before PE 0; `span` is the
      largest distance a PE hears from in that round. */
  lemma {:induction false} StagePolls(c: Config, s: State, r: nat, span: nat, top: nat, d: nat, far: nat)
    returns (s': State)
    requires ValidConfig(c) && Reachable(c, s) && Quiet(s) && |s.pes| == c.numPes
    requires span == c.n * Pow(c.n + 1, r)
    requires d <= top && top + span <= far < c.numPes
    requires Arc(s.pes, 0, top, Pe(1, Recv(r, 1))) && s.pes[At(far, c.numPes)].id == 0
    requires forall e :: 0 <= e < top + span ==> PutDone(c, s, At(e, c.numPes), r, c.n)
    ensures Reachable(c, s') && Quiet(s') && |s'.pes| == c.numPes && s'.pes[At(far, c.numPes)].id == 0
    ensures s'.buf == s.buf
    ensures Arc(s'.pes, 0, d, Pe(1, if r + 1 < c.rounds then Send(r + 1, 1) else Idle))
    ensures Arc(s'.pes, d, top, Pe(1, Recv(r, 1)))
  {
    hide Pow, Reachable, PutDone;
    if d == 0 {
      s' := s;
    } else {
      var s0 := StagePolls(c, s, r, span, top, d - 1, far);
      var p := At(d - 1, c.numPes);
      assert s0.pes[p] == Pe(1, Recv(r, 1));
      forall i | 1 <= i <= c.n ensures InSlot(s0, Slot(p, i, r)) >= 1 {
        SlotFilled(c, s, d - 1, span, top + span, i, r);
      }
      s' := PollsOfRound(c, s0, p, 1, r);
      assert forall k :: InFlight(s', k) == InFlight(s0, k);
      ArcUpdate(s0.pes, 0, d - 1, Pe(1, if r + 1 < c.rounds then Send(r + 1, 1) else Idle), d - 1, s'.pes[p]);
    }
  }

  lemma SlotFilled(c: Config, s: State, d: nat, span: nat, top: nat, i: nat, r: nat)
    requires ValidConfig(c) && 1 <= i <= c.n && top <= c.numPes
    requires span == c.n * Pow(c.n + 1, r) && d + span < top
    requires forall e :: 0 <= e < top ==> PutDone(c, s, At(e, c.numPes), r, c.n)
    ensures InSlot(s, Slot(At(d, c.numPes), i, r)) >= 1
  {
    var stride := Pow(c.n + 1, r);
    MulMonotone(i, c.n, stride, stride);
    var e := d + i * stride;
    AtBack(d, i * stride, c.numPes);
    SlotHasOneWriter(c, At(e, c.numPes), At(d, c.numPes), i, r);
    assert PutDone(c, s, At(e, c.numPes), r, c.n);
  }

  /** One whole round, with the distances abstracted from the powers they stand for. */
  lemma StageRound(c: Config, s: State, r: nat, span: nat, stride: nat, reach: nat) returns (s': State)
    requires ValidConfig(c) && Reachable(c, s) && r < c.rounds && Staged(c, s, r, stride, reach)
    requires span == c.n * Pow(c.n + 1, r) && span + stride <= reach
    ensures Reachable(c, s') && Staged(c, s', r + 1, span + stride, reach)
  {
    var top := reach - stride + 1;
    var s1 := StagePuts(c, s, r, top, top, reach);
    s' := StagePolls(c, s1, r, span, top - span, top - span, reach);
  }

  lemma PowNext(n: nat, r: nat)
    ensures Pow(n + 1, r + 1) == n * Pow(n + 1, r) + Pow(n + 1, r)
  {
    var x := Pow(n + 1, r);
    assert (n + 1) * x == n * x + x;
  }

  lemma Distances(c: Config, r: nat) returns (span: nat)
    requires ValidConfig(c) && r < c.rounds
    ensures span == c.n * Pow(c.n + 1, r)
    ensures Pow(c.n + 1, r + 1) == span + Pow(c.n + 1, r) <= Pow(c.n + 1, c.rounds)
  {
    span := c.n * Pow(c.n + 1, r);
    PowNext(c.n, r);
    hide Pow;
    PowMonotone(c.n + 1, r + 1, c.rounds);
  }

  lemma StageStart(c: Config) returns (s: State)
    requires ValidConfig(c) && !Covers(c)
    ensures Reachable(c, s) && Staged(c, s, 0, Pow(c.n + 1, 0), Pow(c.n + 1, c.rounds))
  {
    hide Reachable;
    var reach := Pow(c.n + 1, c.rounds);
    PowPositive(c.n + 1, c.rounds);
    assert Pow(c.n + 1, 0) == 1;
    hide Pow;
    s := Enters(c, reach);
  }

  lemma {:induction false} StageAll(c: Config, r: nat) returns (s: State)
    requires ValidConfig(c) && !Covers(c) && r <= c.rounds
    ensures Reachable(c, s) && Staged(c, s, r, Pow(c.n + 1, r), Pow(c.n + 1, c.rounds))
  {
    hide Staged, Pow, Reachable;
    if r == 0 {
      s := StageStart(c);
    } else {
      s := StageAll(c, r - 1);
      var span := Distances(c, r - 1);
      s := StageRound(c, s, r - 1, span, Pow(c.n + 1, r - 1), Pow(c.n + 1, c.rounds));
    }
  }

  /** A barrier is safe in every run exactly when its rounds reach every PE. */
  lemma SafeIffCovers(c: Config)
    requires ValidConfig(c)
    ensures AlwaysSafe(c) <==> Covers(c)
  {
    if Covers(c) {
      forall steps | Run(c, steps).Some? ensures Synchronised(Run(c, steps).value) {
        RunInv(c, steps);
        SafeState(c, Run(c, steps).value);
      }
    } else {
      var s := StageAll(c, c.rounds);
      var q := At(Pow(c.n + 1, c.rounds), c.numPes);
      assert s.pes[At(0, c.numPes)] == Pe(1, Idle);
      assert Left(s.pes[0]) == 1 && s.pes[q].id == 0;
    }
  }

  /** For the configurations the constructor builds: a factor above 1 on a team of more
      than two PEs is always safe; everything else falls back to one peer per round and
      is safe exactly on teams whose size is a power of two. */
  lemma ConstructedBarrierSafeIff(numPes: nat, factor: nat)
    requires numPes >= 1
    ensures AlwaysSafe(NewConfig(numPes, factor)) <==>
            (factor > 1 && numPes > 2) || IsPowerOfTwo(numPes)
  {
    SafeIffCovers(NewConfig(numPes, factor));
    NewConfigCoversIff(numPes, factor);
  }

  /** The smallest failing team: three PEs with one peer per round. */
  lemma ThreePesOnePeerUnsafe()
    ensures !AlwaysSafe(NewConfig(3, 1))
  {
    ConstructedBarrierSafeIff(3, 1);
    var f := FloorLog2From(3, 0);
    assert Pow(2, 1) == 2;
  }
}
