/** When the detector lets a PE leave, every handle that ever arrived has also been acknowledged:
    the sweep at the beginning of the last iteration missed nothing. */
module DarcQuiescenceAcks {
  import opened Options
  import opened Sums
  import opened DarcCounts
  import opened DarcQuiescence
  import opened DarcQuiescenceLocal
  import opened DarcQuiescenceProof

  /** Between its sweep and the first barrier a PE has nothing unacknowledged, or will notice
      what has come in since. */
  predicate SweptInv(n: nat, d: Det, me: Inner)
    requires Ranged(n, d) && |me.totalRef| == n
  {
    (Gathering(d.pc) && !d.pc.Sweep?) || d.pc.InB1? ==> me.ref == Zeroes(n) || Dirty(n, d, me)
  }

  ghost predicate AllSwept(s: Sys)
    requires WfSys(s)
  {
    forall p :: 0 <= p < |s.det| ==> SweptInv(|s.det|, s.det[p], s.team.pes[p])
  }

  /** No PE holds an unacknowledged count. */
  ghost predicate AllAcknowledged(s: Sys)
    requires WfSys(s)
  {
    forall p :: 0 <= p < |s.det| ==> s.team.pes[p].ref == Zeroes(|s.det|)
  }

  ghost predicate SettlesAcks(s: Sys)
    requires WfSys(s)
  {
    forall k :: Tight(s) && AllPast(s, k) ==>
      (Quiescent(s) && AllAcknowledged(s)) || exists p :: 0 <= p < |s.det| && DoomedAt(s, p)
  }

  // ---------------------------------------------------------------- the environment

  lemma EnvSweptAt(s: Sys, t: Step, p: nat)
    requires SysInv(s) && EnvOk(s, t) && p < |s.det| && SweptInv(|s.det|, s.det[p], s.team.pes[p])
    ensures SweptInv(|s.det|, s.det[p], Acted(s, Env(t)).team.pes[p])
  {
    hide InStep, AllRead, GoesOn, Leaves, Settles;
    assert LocalAt(s, p);
    var d, me, me' := s.det[p], s.team.pes[p], Acted(s, Env(t)).team.pes[p];
    if Begun(d.pc) {
      if t.Deserialize? && t.dst == p {
        assert d.prev[t.src] < me'.totalRef[t.src];
      } else if Dirty(|s.det|, d, me) {
        assert me'.totalRef == me.totalRef;
      }
    }
  }

  /** In a quiescent state nothing arrives, so nothing new is to be acknowledged. */
  lemma EnvAcknowledged(s: Sys, t: Step)
    requires WfSys(s) && EnvOk(s, t) && Quiescent(s) && AllAcknowledged(s)
    ensures AllAcknowledged(Acted(s, Env(t)))
  {
    assert !t.Deserialize?;
  }

  lemma EnvSettlesAcks(s: Sys, t: Step)
    requires SysInv(s) && SettlesAcks(s) && EnvOk(s, t)
    ensures SettlesAcks(Acted(s, Env(t)))
  {
    hide AllLocal, InStep, AllRead, GoesOn, Leaves, Settles, DoomedAt, Slots, Quiescent, AllAcknowledged, DarcCounts.Apply;
    var s' := Acted(s, Env(t));
    forall k | Tight(s) && AllPast(s', k)
      ensures (Quiescent(s') && AllAcknowledged(s')) || exists p :: 0 <= p < |s'.det| && DoomedAt(s', p)
    {
      assert AllPast(s, k);
      if Quiescent(s) && AllAcknowledged(s) {
        forall p | 0 <= p < |s.det| ensures !s.det[p].pc.Start? { assert Past(k, s.det[p]); }
        QuiescenceLasts(s, t);
        EnvAcknowledged(s, t);
      } else {
        var p :| 0 <= p < |s.det| && DoomedAt(s, p);
        EnvDoomStays(s, t, p);
      }
    }
  }

  // ---------------------------------------------------------------- a PE's own step

  lemma NextSwept(n: nat, d: Det, me: Inner, refs: seq<nat>, ids: seq<nat>)
    requires Ranged(n, d) && !d.pc.Exit? && |me.totalRef| == n && |refs| == n && |ids| == n
    requires SweptInv(n, d, me) && !d.pc.Sweep?
    ensures SweptInv(n, NextDet(n, d, me, refs, ids), me)
  {
    if Begun(d.pc) && Dirty(n, d, me) && !d.outstanding {
      var j :| 0 <= j < n && d.prev[j] < me.totalRef[j];
    }
  }

  lemma SweepsAll(s: Sys, p: nat)
    requires WfSys(s) && CanAct(s, Go(p)) && s.det[p].pc.Sweep?
    ensures Acted(s, Go(p)).team.pes[p].ref == Zeroes(|s.det|)
    ensures forall q :: 0 <= q < |s.det| && q != p ==> Acted(s, Go(p)).team.pes[q] == s.team.pes[q]
  {
    hide NextDet, Slots;
  }

  lemma GoTeam(s: Sys, p: nat)
    requires WfSys(s) && CanAct(s, Go(p)) && !s.det[p].pc.Sweep?
    ensures Acted(s, Go(p)).team == s.team
  {
    hide NextDet, Slots;
  }

  lemma GoSwept(s: Sys, p: nat)
    requires WfSys(s) && AllSwept(s) && CanAct(s, Go(p))
    ensures AllSwept(Acted(s, Go(p)))
  {
    hide NextDet, Slots, Acted, SweptInv;
    GoDet(s, p);
    forall q | 0 <= q < |s.det| ensures SweptInv(|s.det|, Acted(s, Go(p)).det[q], Acted(s, Go(p)).team.pes[q]) {
      if s.det[p].pc.Sweep? {
        SweepsAll(s, p);
        if q == p { ZeroIsSwept(|s.det|, Acted(s, Go(p)).det[p], Acted(s, Go(p)).team.pes[p]); }
      } else {
        GoTeam(s, p);
        if q == p { NextSwept(|s.det|, s.det[p], s.team.pes[p], Slots(s.refSlot, p), Slots(s.idSlot, p)); }
      }
    }
  }

  lemma ZeroIsSwept(n: nat, d: Det, me: Inner)
    requires Ranged(n, d) && |me.totalRef| == n && me.ref == Zeroes(n)
    ensures SweptInv(n, d, me)
  {
  }

  /** With everybody in the first barrier and nobody bound to flag anything, every PE's sweep was
      the last word. */
  lemma NobodyDoomedIsAcknowledged(s: Sys)
    requires WfSys(s) && AllLocal(s) && AllSwept(s)
    requires forall p :: 0 <= p < |s.det| ==> s.det[p].pc.InB1? && !DoomedAt(s, p)
    ensures AllAcknowledged(s)
  {
    forall p | 0 <= p < |s.det| ensures s.team.pes[p].ref == Zeroes(|s.det|) {
      assert SweptInv(|s.det|, s.det[p], s.team.pes[p]) && !DoomedAt(s, p);
    }
  }

  lemma StillSettledAcks(s: Sys, p: nat, k: nat)
    requires SysInv(s) && SettlesAcks(s) && CanAct(s, Go(p)) && Tight(s)
    requires AllPast(s, k) && AllPast(Acted(s, Go(p)), k)
    ensures var s' := Acted(s, Go(p));
            (Quiescent(s') && AllAcknowledged(s')) || exists q :: 0 <= q < |s'.det| && DoomedAt(s', q)
  {
    hide NextDet, Slots, Doomed, Past, AllLocal, InStep, AllRead, GoesOn, Leaves, Settles;
    assert Past(k, s.det[p]) && Past(k, Acted(s, Go(p)).det[p]);
    PastFrame(s, p, k);
    if !(Quiescent(s) && AllAcknowledged(s)) {
      var q :| 0 <= q < |s.det| && DoomedAt(s, q);
      assert Past(k, s.det[q]);
      DoomStays(s, p, k, q);
    }
  }

  lemma GoSettlesAcks(s: Sys, p: nat)
    requires SysInv(s) && SettlesAcks(s) && CanAct(s, Go(p))
    requires SysInv(Acted(s, Go(p))) && AllSwept(Acted(s, Go(p)))
    ensures SettlesAcks(Acted(s, Go(p)))
  {
    hide NextDet, Slots, Past, InStep, AllRead, GoesOn, Leaves, Settles, Quiescent, DoomedAt, AllPast, AllLocal, Acted;
    hide AllAcknowledged, AllSwept;
    var s' := Acted(s, Go(p));
    forall k | Tight(s) && AllPast(s', k)
      ensures (Quiescent(s') && AllAcknowledged(s')) || exists q :: 0 <= q < |s.det| && DoomedAt(s', q)
    {
      if AllPast(s, k) {
        StillSettledAcks(s, p, k);
      } else {
        LastIn(s, p, k);
        if forall q :: 0 <= q < |s.det| ==> !DoomedAt(s', q) {
          NobodyDoomedIsQuiescent(s');
          NobodyDoomedIsAcknowledged(s');
        }
      }
    }
  }

  // ---------------------------------------------------------------- over every run

  lemma {:induction false} TraceAcks(s0: Sys, acts: seq<Act>)
    requires Begins(s0) && |s0.det| >= 1 && Trace(s0, acts).Some?
    ensures var s := Trace(s0, acts).value;
            SysInv(s) && AllSwept(s) && SettlesAcks(s)
    decreases |acts|
  {
    TraceInv(s0, acts);
    if acts == [] {
      assert s0.det[0].pc == Start;
      forall k ensures !AllPast(s0, k) { assert !Past(k, s0.det[0]); }
    } else {
      var before, a := acts[..|acts| - 1], acts[|acts| - 1];
      TraceAcks(s0, before);
      var s := Trace(s0, before).value;
      hide SysInv, AllSwept, SettlesAcks, Acted, CanAct;
      match a
      case Env(t) => EnvAcks(s, t);
      case Go(p) =>
        GoAcks(s, p);
    }
  }

  lemma EnvAcks(s: Sys, t: Step)
    requires SysInv(s) && AllSwept(s) && SettlesAcks(s) && CanAct(s, Env(t))
    ensures AllSwept(Acted(s, Env(t))) && SettlesAcks(Acted(s, Env(t)))
  {
    EnvSettlesAcks(s, t);
    hide AllLocal, InStep, AllRead, GoesOn, Leaves, Settles, SettlesAcks, DarcCounts.Apply, SweptInv;
    forall p | 0 <= p < |s.det| ensures SweptInv(|s.det|, s.det[p], Acted(s, Env(t)).team.pes[p]) {
      EnvSweptAt(s, t, p);
    }
  }

  lemma GoAcks(s: Sys, p: nat)
    requires SysInv(s) && AllSwept(s) && SettlesAcks(s) && CanAct(s, Go(p)) && SysInv(Acted(s, Go(p)))
    ensures AllSwept(Acted(s, Go(p))) && SettlesAcks(Acted(s, Go(p)))
  {
    hide AllLocal, InStep, AllRead, GoesOn, Leaves, Settles, SettlesAcks, AllSwept, Acted;
    GoSwept(s, p);
    GoSettlesAcks(s, p);
  }

  lemma ExitIsAcknowledgedIn(s: Sys, p: nat)
    requires SysInv(s) && Tight(s) && SettlesAcks(s) && p < |s.det| && s.det[p].pc.Exit?
    ensures AllAcknowledged(s)
  {
    var k := s.det[p].iter;
    hide Settles, InStep, AllRead, GoesOn;
    forall q | 0 <= q < |s.det| ensures Past(k, s.det[q]) && !DoomedAt(s, q) {
      assert LeavesTogether(s, p, q) && !SeesZero(s, q) && LocalAt(s, q);
      assert s.idSlot[q][q] == s.det[q].bid;
    }
    assert AllPast(s, k);
  }

  /** Once a PE has left the loop, under the assumption of `ExitMeansQuiescent`, no PE holds an
      unacknowledged count, so a PE's distributed count is what acknowledgements on their way to
      it carry. */
  lemma ExitMeansAcknowledged(s0: Sys, acts: seq<Act>, p: nat, q: nat)
    requires Begins(s0) && Tight(s0) && Trace(s0, acts).Some?
    requires p < |Trace(s0, acts).value.det| && Trace(s0, acts).value.det[p].pc.Exit?
    requires q < |Trace(s0, acts).value.det|
    ensures var s := Trace(s0, acts).value;
            s.team.pes[q].ref == Zeroes(|s.det|) && s.team.pes[q].dist == Sum(s.team.acks[q])
  {
    TraceLength(s0, acts);
    TraceAcks(s0, acts);
    ExitMeansQuiescent(s0, acts, p);
    var s := Trace(s0, acts).value;
    ExitIsAcknowledgedIn(s, p);
    OnlyAcks(s, q);
  }

  lemma OnlyAcks(s: Sys, q: nat)
    requires SysInv(s) && Quiescent(s) && AllAcknowledged(s) && q < |s.det|
    ensures s.team.pes[q].dist == Sum(s.team.acks[q])
  {
    hide AllLocal, InStep, AllRead, GoesOn, Leaves, Settles;
    assert Conserved(s.team, q);
    SumZeroes(s.team.flight[q]);
    SumZeroes(Column(s.team.pes, q));
  }
}
