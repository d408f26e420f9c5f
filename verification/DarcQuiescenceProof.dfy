/** Safety of the quiescence detector over every run: all PEs leave the loop in the same
    iteration, and from the moment the first one leaves no handle is in flight and no PE
    holds a handle besides its caller's. */
module DarcQuiescenceProof {
  import opened Options
  import opened Sums
  import opened DarcCounts
  import opened DarcQuiescence
  import opened DarcQuiescenceLocal

  predicate LocalAt(s: Sys, p: nat)
    requires WfSys(s) && p < |s.det|
  {
    LocalInv(|s.det|, s.limit[p], s.own[p], s.det[p], s.team.pes[p], s.refSlot[p], s.idSlot[p])
  }

  ghost predicate AllLocal(s: Sys)
    requires WfSys(s)
  {
    forall p :: 0 <= p < |s.det| ==> LocalAt(s, p)
  }

  /** The barriers keep the PEs together. */
  ghost predicate InStep(s: Sys)
    requires WfSys(s)
  {
    forall p, q :: 0 <= p < |s.det| && 0 <= q < |s.det| ==> Left(s.det[p]) <= s.det[q].entered
  }

  ghost predicate SeesZero(s: Sys, p: nat)
    requires WfSys(s) && p < |s.det|
  {
    exists j :: 0 <= j < |s.det| && s.idSlot[j][p] == 0
  }

  /** A PE reading the advertised ids has flagged the zeroes it has met, and nothing but
      a zero has made it go on. */
  ghost predicate ReadsIds(s: Sys, p: nat)
    requires WfSys(s) && p < |s.det|
  {
    s.det[p].pc.ReadIds? ==>
      && (forall j :: 0 <= j < s.det[p].pc.i && s.idSlot[j][p] == 0 ==> s.det[p].outstanding)
      && (s.det[p].outstanding ==> SeesZero(s, p))
  }

  ghost predicate AllRead(s: Sys)
    requires WfSys(s)
  {
    forall p :: 0 <= p < |s.det| ==> ReadsIds(s, p)
  }

  /** Whoever went on to a further iteration did so for a zero that everybody sees. */
  ghost predicate GoesOn(s: Sys)
    requires WfSys(s)
  {
    forall p, q :: 0 <= p < |s.det| && 0 <= q < |s.det| && Deciding(s.det[p].pc) && Iter(s.det[q]) == s.det[p].iter + 1
      ==> SeesZero(s, p)
  }

  /** Whoever left did so with everybody else about to leave. */
  ghost predicate LeavesTogether(s: Sys, p: nat, q: nat)
    requires WfSys(s) && p < |s.det| && q < |s.det|
  {
    s.det[p].pc.Exit? ==> Deciding(s.det[q].pc) && s.det[q].iter == s.det[p].iter && !SeesZero(s, q)
  }

  ghost predicate Leaves(s: Sys)
    requires WfSys(s)
  {
    forall p, q :: 0 <= p < |s.det| && 0 <= q < |s.det| ==> LeavesTogether(s, p, q)
  }

  predicate Past(k: nat, d: Det) {
    Begun(d.pc) && !d.pc.Wait? && !Gathering(d.pc) && d.iter == k
  }

  ghost predicate AllPast(s: Sys, k: nat)
    requires WfSys(s)
  {
    forall p :: 0 <= p < |s.det| ==> Past(k, s.det[p])
  }

  /** This PE will flag outstanding references in this iteration, or has done so. `refs`
      are the `mode_ref_cnt` slots it reads. */
  ghost predicate Doomed(n: nat, d: Det, me: Inner, refs: seq<nat>)
    requires Ranged(n, d) && |me.totalRef| == n && |refs| == n
  {
    if d.pc.InB1? || d.pc.CheckLocal? || d.pc.CheckDist? then
      || d.outstanding || (exists j :: 0 <= j < n && d.prev[j] < me.totalRef[j])
      || d.snapDist != me.totalDist || Sum(refs) != d.snapDist
    else if d.pc.CheckRefs? then
      || d.outstanding || (exists j :: d.pc.i <= j < n && d.prev[j] < me.totalRef[j])
      || d.sum + Sum(refs[d.pc.i..]) != d.snapDist
    else if d.pc.CheckSum? then d.outstanding || d.sum != d.snapDist
    else d.bid == 0
  }

  ghost predicate DoomedAt(s: Sys, p: nat)
    requires WfSys(s) && p < |s.det|
  {
    Doomed(|s.det|, s.det[p], s.team.pes[p], Slots(s.refSlot, p))
  }

  /** Once everybody has taken its snapshots, either there is quiescence or somebody is
      bound to notice that there is not. */
  ghost predicate Settles(s: Sys)
    requires WfSys(s)
  {
    forall k :: Tight(s) && AllPast(s, k) ==> Quiescent(s) || exists p :: 0 <= p < |s.det| && DoomedAt(s, p)
  }

  ghost predicate SysInv(s: Sys) {
    && WfSys(s) && |s.det| >= 1 && DarcCounts.Inv(s.team)
    && AllLocal(s) && InStep(s) && AllRead(s) && GoesOn(s) && Leaves(s) && Settles(s)
  }

  lemma BeginsInv(s: Sys)
    requires Begins(s) && |s.det| >= 1
    ensures SysInv(s)
  {
    assert forall p :: 0 <= p < |s.det| ==> LocalAt(s, p);
    assert s.det[0].pc == Start;
    assert forall k :: !AllPast(s, k) by {
      forall k ensures !AllPast(s, k) { assert !Past(k, s.det[0]); }
    }
  }

  // ---------------------------------------------------------------- the environment

  lemma EnvEffects(s: Sys, t: Step, q: nat)
    requires SysInv(s) && EnvOk(s, t) && q < |s.det|
    ensures var s' := Acted(s, Env(t));
            EnvEffect(|s.det|, s.own[q], s.det[q], s.team.pes[q], s'.team.pes[q])
  {
    assert LocalAt(s, q);
    var me, me' := s.team.pes[q], Acted(s, Env(t)).team.pes[q];
    if t.Deserialize? && t.dst == q {
      assert me.totalRef[t.src] < me'.totalRef[t.src];
    }
  }

  lemma EnvAllLocal(s: Sys, t: Step)
    requires SysInv(s) && EnvOk(s, t)
    ensures AllLocal(Acted(s, Env(t)))
  {
    var s' := Acted(s, Env(t));
    forall p | 0 <= p < |s.det| ensures LocalAt(s', p) {
      assert LocalAt(s, p);
      EnvEffects(s, t, p);
      EnvLocalInv(|s.det|, s.limit[p], s.own[p], s.det[p], s.team.pes[p], s'.team.pes[p], s.refSlot[p], s.idSlot[p]);
    }
  }

  /** With everybody in the call, nothing creates a handle in a quiescent state. */
  lemma QuiescenceLasts(s: Sys, t: Step)
    requires WfSys(s) && EnvOk(s, t) && Quiescent(s)
    requires forall p :: 0 <= p < |s.det| ==> !s.det[p].pc.Start?
    ensures Quiescent(Acted(s, Env(t)))
  {
  }

  lemma DoomLasts(n: nat, d: Det, me: Inner, me': Inner, refs: seq<nat>)
    requires Ranged(n, d) && |me.totalRef| == n && |me'.totalRef| == n && |refs| == n
    requires Lags(n, d, me) && Doomed(n, d, me, refs)
    requires (forall j :: 0 <= j < n ==> me.totalRef[j] <= me'.totalRef[j]) && me.totalDist <= me'.totalDist
    ensures Doomed(n, d, me', refs)
  {
    if d.pc.InB1? || d.pc.CheckLocal? || d.pc.CheckDist? {
      if j :| 0 <= j < n && d.prev[j] < me.totalRef[j] { assert d.prev[j] < me'.totalRef[j]; }
    } else if d.pc.CheckRefs? {
      if j :| d.pc.i <= j < n && d.prev[j] < me.totalRef[j] { assert d.prev[j] < me'.totalRef[j]; }
    }
  }

  lemma EnvDoomStays(s: Sys, t: Step, p: nat)
    requires SysInv(s) && EnvOk(s, t) && p < |s.det| && DoomedAt(s, p)
    ensures DoomedAt(Acted(s, Env(t)), p)
  {
    hide InStep, AllRead, GoesOn, Leaves, Settles, Doomed, Slots, DarcCounts.Apply;
    var s' := Acted(s, Env(t));
    assert LocalAt(s, p);
    EnvEffects(s, t, p);
    DoomLasts(|s.det|, s.det[p], s.team.pes[p], s'.team.pes[p], Slots(s.refSlot, p));
  }

  lemma EnvSettles(s: Sys, t: Step)
    requires SysInv(s) && EnvOk(s, t)
    ensures Settles(Acted(s, Env(t)))
  {
    hide AllLocal, InStep, AllRead, GoesOn, Leaves, DoomedAt, Slots, Quiescent, DarcCounts.Apply;
    var s' := Acted(s, Env(t));
    forall k | Tight(s) && AllPast(s', k)
      ensures Quiescent(s') || exists p :: 0 <= p < |s'.det| && DoomedAt(s', p)
    {
      assert AllPast(s, k);
      if Quiescent(s) {
        forall p | 0 <= p < |s.det| ensures !s.det[p].pc.Start? { assert Past(k, s.det[p]); }
        QuiescenceLasts(s, t);
      } else {
        var p :| 0 <= p < |s.det| && DoomedAt(s, p);
        EnvDoomStays(s, t, p);
      }
    }
  }

  lemma EnvInv(s: Sys, t: Step)
    requires SysInv(s) && EnvOk(s, t)
    ensures SysInv(Acted(s, Env(t)))
  {
    var s' := Acted(s, Env(t));
    StepInv(s.team, t);
    EnvAllLocal(s, t);
    EnvSettles(s, t);
    forall p | 0 <= p < |s.det| ensures ReadsIds(s', p) && (SeesZero(s', p) <==> SeesZero(s, p)) {
      assert ReadsIds(s, p);
    }
    forall p, q | 0 <= p < |s.det| && 0 <= q < |s.det| ensures LeavesTogether(s', p, q) {
      assert LeavesTogether(s, p, q);
    }
  }

  // ---------------------------------------------------------------- a PE's own step

  lemma GoAllLocal(s: Sys, p: nat)
    requires SysInv(s) && CanAct(s, Go(p))
    ensures AllLocal(Acted(s, Go(p)))
  {
    hide AllRead, GoesOn, Leaves, Settles, InStep, NextDet, LocalInv;
    var s' := Acted(s, Go(p));
    forall q | 0 <= q < |s.det| ensures LocalAt(s', q) {
      assert LocalAt(s, q);
      if q == p {
        NextLocalInv(|s.det|, s.limit[p], s.own[p], s.det[p], s.team.pes[p], s.refSlot[p], s.idSlot[p],
                     Slots(s.refSlot, p), Slots(s.idSlot, p));
        if s.det[p].pc.Sweep? { SweptLocal(|s.det|, s.limit[p], s.own[p], s'.det[p], s.team.pes[p], s'.team.pes[p], s'.refSlot[p], s'.idSlot[p]); }
      }
    }
  }

  /** A sweep leaves the counters the detector looks at alone. */
  lemma SweptLocal(n: nat, limit: nat, own: nat, d: Det, me: Inner, me': Inner, refRow: seq<nat>, idRow: seq<nat>)
    requires |me.totalRef| == n && |refRow| == n && |idRow| == n
    requires me' == Swept(me) && LocalInv(n, limit, own, d, me, refRow, idRow)
    ensures LocalInv(n, limit, own, d, me', refRow, idRow)
  {
    EnvLocalInv(n, limit, own, d, me, me', refRow, idRow);
  }

  /** A PE's step changes its own local state, and its ids only while it is putting them. */
  lemma GoDet(s: Sys, p: nat)
    requires WfSys(s) && CanAct(s, Go(p))
    ensures var s', d := Acted(s, Go(p)), s.det[p];
            && Ranged(|s.det|, d) && !d.pc.Exit? && Sized(s)
            && s'.det == s.det[p := NextDet(|s.det|, d, s.team.pes[p], Slots(s.refSlot, p), Slots(s.idSlot, p))]
            && (!d.pc.PutIds? ==> s'.idSlot == s.idSlot)
  {
    hide NextDet, Slots;
  }

  lemma NextLeft(n: nat, d: Det, me: Inner, refs: seq<nat>, ids: seq<nat>)
    requires Ranged(n, d) && !d.pc.Exit? && |me.totalRef| == n && |refs| == n && |ids| == n
    ensures var d' := NextDet(n, d, me, refs, ids);
            && d'.entered >= d.entered
            && (Left(d') <= Left(d) || (InBar(d.pc) && Left(d') == d.entered))
  {
  }

  lemma GoInStep(s: Sys, p: nat)
    requires SysInv(s) && CanAct(s, Go(p))
    ensures InStep(Acted(s, Go(p)))
  {
    hide AllRead, GoesOn, Leaves, Settles, Slots, LocalAt, NextDet, Left, Acted;
    var s' := Acted(s, Go(p));
    GoDet(s, p);
    NextLeft(|s.det|, s.det[p], s.team.pes[p], Slots(s.refSlot, p), Slots(s.idSlot, p));
    forall a, b | 0 <= a < |s'.det| && 0 <= b < |s'.det| ensures Left(s'.det[a]) <= s'.det[b].entered {
      assert Left(s.det[a]) <= s.det[b].entered;
    }
  }

  /** While PE `p` may look at the ids of its iteration, nobody is putting ids. */
  lemma NobodyPuts(s: Sys, p: nat, w: nat)
    requires WfSys(s) && AllLocal(s) && InStep(s) && p < |s.det| && w < |s.det|
    requires s.det[p].pc.ReadIds? || s.det[p].pc.Exit?
    ensures !s.det[w].pc.PutIds?
    ensures Begun(s.det[w].pc) && (Deciding(s.det[w].pc) || s.det[w].iter >= 2)
    ensures s.det[w].iter == s.det[p].iter ==> Deciding(s.det[w].pc)
    ensures s.det[p].iter <= s.det[w].iter <= s.det[p].iter + 1
  {
    assert LocalAt(s, p) && LocalAt(s, w);
    assert Left(s.det[p]) <= s.det[w].entered && Left(s.det[w]) <= s.det[p].entered;
  }

  /** All PEs see the same ids. */
  lemma SameIds(s: Sys, p: nat, q: nat)
    requires WfSys(s) && AllLocal(s) && InStep(s) && p < |s.det| && q < |s.det|
    requires s.det[p].pc.ReadIds? || s.det[p].pc.Exit?
    ensures SeesZero(s, p) <==> SeesZero(s, q)
  {
    forall j | 0 <= j < |s.det| ensures s.idSlot[j][p] == s.idSlot[j][q] {
      NobodyPuts(s, p, j);
      assert LocalAt(s, j);
    }
  }

  /** With PE `b` one iteration ahead of PE `a`, nobody is putting ids. */
  lemma OneAhead(s: Sys, a: nat, b: nat, p: nat)
    requires WfSys(s) && AllLocal(s) && InStep(s) && a < |s.det| && b < |s.det| && p < |s.det|
    requires Deciding(s.det[a].pc) && Iter(s.det[b]) == s.det[a].iter + 1
    ensures !s.det[p].pc.PutIds?
  {
    assert LocalAt(s, a) && LocalAt(s, b) && LocalAt(s, p);
    assert Left(s.det[b]) <= s.det[p].entered && Left(s.det[p]) <= s.det[a].entered;
  }

  /** While PE `p` is putting its ids, nobody is in a later iteration. */
  lemma NoneAhead(s: Sys, p: nat, b: nat)
    requires WfSys(s) && AllLocal(s) && InStep(s) && p < |s.det| && b < |s.det| && s.det[p].pc.PutIds?
    ensures Iter(s.det[b]) <= s.det[p].iter
  {
    assert LocalAt(s, b) && LocalAt(s, p);
    assert Left(s.det[b]) <= s.det[p].entered;
  }

  /** How one step of a PE bears on the decision. */
  predicate DecisionStep(n: nat, d: Det, d': Det) {
    && (Deciding(d'.pc) ==> d'.iter == d.iter && (d.pc.PutIds? || Deciding(d.pc)))
    && (Iter(d') != Iter(d) ==> || (d.pc.InInit? && Iter(d') == 1)
                                || (d.pc == ReadIds(n) && d.outstanding && Iter(d') == d.iter + 1))
    && (d'.pc.Exit? ==> d.pc == ReadIds(n) && !d.outstanding)
    && (d.pc.InB3? ==> d'.pc == ReadIds(0) && d'.outstanding == d.outstanding)
    && (Deciding(d.pc) && !Deciding(d'.pc) ==> d.outstanding)
  }

  lemma GoEffect(s: Sys, s': Sys, p: nat)
    requires WfSys(s) && CanAct(s, Go(p)) && s' == Acted(s, Go(p))
    ensures |s'.det| == |s.det| && s'.det == s.det[p := s'.det[p]]
    ensures DecisionStep(|s.det|, s.det[p], s'.det[p])
    ensures !s.det[p].pc.PutIds? ==> s'.idSlot == s.idSlot
    ensures s.det[p].pc.ReadIds? && s'.det[p].pc.ReadIds? ==>
              var i := s.det[p].pc.i;
              && i < |s.det| && s'.det[p].pc.i == i + 1
              && s'.det[p].outstanding == (s.det[p].outstanding || s.idSlot[i][p] == 0)
    ensures s'.det[p].pc.ReadIds? ==> s.det[p].pc.InB3? || s.det[p].pc.ReadIds?
  {
    hide NextDet, DecisionStep, Acted, WfSys;
    GoDet(s, p);
    NextDecision(|s.det|, s.det[p], s.team.pes[p], Slots(s.refSlot, p), Slots(s.idSlot, p));
  }

  lemma NextDecision(n: nat, d: Det, me: Inner, refs: seq<nat>, ids: seq<nat>)
    requires Ranged(n, d) && !d.pc.Exit? && |me.totalRef| == n && |refs| == n && |ids| == n
    ensures var d' := NextDet(n, d, me, refs, ids);
            && DecisionStep(n, d, d')
            && (d'.pc.ReadIds? ==> d.pc.InB3? || d.pc.ReadIds?)
            && (d.pc.ReadIds? && d'.pc.ReadIds? ==>
                  var i := d.pc.i;
                  && i < n && d'.pc.i == i + 1
                  && d'.outstanding == (d.outstanding || ids[i] == 0))
  {
  }

  lemma KeepsZero(s: Sys, s': Sys, a: nat)
    requires WfSys(s) && WfSys(s') && |s'.det| == |s.det| && s'.idSlot == s.idSlot && a < |s.det|
    ensures SeesZero(s, a) <==> SeesZero(s', a)
  {
  }

  lemma GoReadsIds(s: Sys, s': Sys, p: nat, q: nat)
    requires WfSys(s) && AllLocal(s) && InStep(s) && CanAct(s, Go(p)) && s' == Acted(s, Go(p))
    requires q < |s.det| && ReadsIds(s, q)
    ensures ReadsIds(s', q)
  {
    GoEffect(s, s', p);
    if s'.det[q].pc.ReadIds? {
      assert LocalAt(s, q);
      if q != p { NobodyPuts(s, q, p); }
      KeepsZero(s, s', q);
      if q == p && s.det[p].pc.InB3? {
        assert s'.det[p].outstanding ==> s'.idSlot[p][p] == 0;
      }
    }
  }

  lemma GoAllRead(s: Sys, p: nat)
    requires WfSys(s) && AllLocal(s) && InStep(s) && AllRead(s) && GoesOn(s) && Leaves(s) && CanAct(s, Go(p))
    ensures AllRead(Acted(s, Go(p)))
  {
    var s' := Acted(s, Go(p));
    forall q | 0 <= q < |s.det| ensures ReadsIds(s', q) {
      GoReadsIds(s, s', p, q);
    }
  }

  lemma GoGoesOnAt(s: Sys, s': Sys, p: nat, a: nat, b: nat)
    requires WfSys(s) && AllLocal(s) && InStep(s) && CanAct(s, Go(p)) && s' == Acted(s, Go(p))
    requires a < |s.det| && b < |s.det|
    requires Deciding(s.det[a].pc) && Iter(s.det[b]) == s.det[a].iter + 1 ==> SeesZero(s, a)
    requires ReadsIds(s, p)
    requires Deciding(s'.det[a].pc) && Iter(s'.det[b]) == s'.det[a].iter + 1
    ensures SeesZero(s', a)
  {
    GoEffect(s, s', p);
    assert LocalAt(s, a);
    if s.det[p].pc.PutIds? {
      if a == p { NoneAhead(s, p, b); } else { OneAhead(s, a, b, p); }
    } else {
      KeepsZero(s, s', a);
      if Iter(s.det[b]) != s.det[a].iter + 1 {
        assert b == p && s.det[p].pc.ReadIds?;
        SameIds(s, p, a);
      }
    }
  }

  lemma GoGoesOn(s: Sys, p: nat)
    requires WfSys(s) && AllLocal(s) && InStep(s) && AllRead(s) && GoesOn(s) && Leaves(s) && CanAct(s, Go(p))
    ensures GoesOn(Acted(s, Go(p)))
  {
    var s' := Acted(s, Go(p));
    forall a, b | && 0 <= a < |s.det| && 0 <= b < |s.det|
                  && Deciding(s'.det[a].pc) && Iter(s'.det[b]) == s'.det[a].iter + 1
      ensures SeesZero(s', a)
    {
      GoGoesOnAt(s, s', p, a, b);
    }
  }

  lemma GoLeavesAt(s: Sys, s': Sys, p: nat, a: nat, b: nat)
    requires WfSys(s) && AllLocal(s) && InStep(s) && CanAct(s, Go(p)) && s' == Acted(s, Go(p))
    requires GoesOn(s) && Leaves(s) && ReadsIds(s, p)
    requires a < |s.det| && b < |s.det|
    ensures LeavesTogether(s', a, b)
  {
    GoEffect(s, s', p);
    if s'.det[a].pc.Exit? {
      GoLeavesNow(s, s', p, a, b);
    }
  }

  lemma GoLeavesNow(s: Sys, s': Sys, p: nat, a: nat, b: nat)
    requires WfSys(s) && AllLocal(s) && InStep(s) && CanAct(s, Go(p)) && s' == Acted(s, Go(p))
    requires GoesOn(s) && Leaves(s) && ReadsIds(s, p)
    requires a < |s.det| && b < |s.det| && s'.det[a].pc.Exit?
    ensures LeavesTogether(s', a, b)
  {
    GoEffect(s, s', p);
    if s.det[a].pc.Exit? {
      assert LeavesTogether(s, a, p) && LeavesTogether(s, a, b);
      assert Deciding(s.det[p].pc) && s.det[p].iter == s.det[a].iter && !SeesZero(s, p);
      assert LocalAt(s, p);
      assert s.idSlot[p][p] != 0;
    } else {
      NobodyPuts(s, p, b);
      SameIds(s, p, b);
    }
    KeepsZero(s, s', b);
  }

  lemma GoLeaves(s: Sys, p: nat)
    requires WfSys(s) && AllLocal(s) && InStep(s) && AllRead(s) && GoesOn(s) && Leaves(s) && CanAct(s, Go(p))
    ensures Leaves(Acted(s, Go(p)))
  {
    var s' := Acted(s, Go(p));
    assert ReadsIds(s, p);
    forall a, b | 0 <= a < |s.det| && 0 <= b < |s.det| ensures LeavesTogether(s', a, b) {
      GoLeavesAt(s, s', p, a, b);
    }
  }

  // ---------------------------------------------------------------- settling

  lemma DoomedNext(n: nat, d: Det, me: Inner, refs: seq<nat>, ids: seq<nat>)
    requires Ranged(n, d) && !d.pc.Exit? && |me.totalRef| == n && |refs| == n && |ids| == n
    requires Begun(d.pc) && !d.pc.Wait? && !Gathering(d.pc)
    requires Bids(d) && Flags(n, d) && Lags(n, d, me)
    requires Doomed(n, d, me, refs)
    requires Past(d.iter, NextDet(n, d, me, refs, ids))
    ensures Doomed(n, NextDet(n, d, me, refs, ids), me, refs)
  {
    var d' := NextDet(n, d, me, refs, ids);
    if d.pc.InB1? || d.pc.CheckLocal? || d.pc.CheckDist? {
      assert refs[0..] == refs;
      if j :| 0 <= j < n && d.prev[j] < me.totalRef[j] { assert d'.prev[j] < me.totalRef[j]; }
    } else if d.pc.CheckRefs? && d.pc.i < n {
      assert refs[d.pc.i..] == [refs[d.pc.i]] + refs[d.pc.i + 1..];
      if !d'.outstanding {
        if j :| d.pc.i <= j < n && d.prev[j] < me.totalRef[j] {
          assert j != d.pc.i;
        }
      }
    } else if d.pc.CheckRefs? {
      assert refs[n..] == [];
    }
  }

  /** The heart of the detector. With everybody in the first barrier and nobody bound to
      flag anything, no handle is left over: what each PE received is what its senders were
      told, the sum matches what they ever sent, and so nothing is in flight. */
  lemma NobodyDoomedIsQuiescent(s: Sys)
    requires WfSys(s) && Tight(s) && DarcCounts.Inv(s.team) && AllLocal(s)
    requires forall p :: 0 <= p < |s.det| ==> s.det[p].pc.InB1? && !DoomedAt(s, p)
    ensures Quiescent(s)
  {
    var n := |s.det|;
    forall p | 0 <= p < n ensures s.team.flight[p] == Zeroes(n) && s.team.pes[p].local == s.own[p] {
      assert LocalAt(s, p) && !DoomedAt(s, p);
      NothingInFlight(s, p);
    }
  }

  lemma NothingInFlight(s: Sys, p: nat)
    requires WfSys(s) && DarcCounts.Inv(s.team) && AllLocal(s) && p < |s.det|
    requires forall p :: 0 <= p < |s.det| ==> s.det[p].pc.InB1? && !DoomedAt(s, p)
    ensures s.team.flight[p] == Zeroes(|s.det|)
  {
    var n := |s.det|;
    var slots, col := Slots(s.refSlot, p), TotalColumn(s.team.pes, p);
    forall w | 0 <= w < n ensures slots[w] == col[w] {
      assert LocalAt(s, w) && !DoomedAt(s, w);
      assert s.refSlot[w] == s.det[w].snap;
    }
    assert slots == col;
    assert !DoomedAt(s, p) && Conserved(s.team, p);
    assert Sum(s.team.flight[p]) == 0;
    forall q | 0 <= q < n ensures s.team.flight[p][q] == 0 {
      SumAtLeast(s.team.flight[p], q);
    }
  }

  /** The last PE into the first barrier finds all the others waiting there. */
  lemma LastIn(s: Sys, p: nat, k: nat)
    requires SysInv(s) && CanAct(s, Go(p)) && AllPast(Acted(s, Go(p)), k) && !AllPast(s, k)
    ensures var s' := Acted(s, Go(p));
            forall q :: 0 <= q < |s.det| ==> s'.det[q].pc.InB1?
  {
    hide AllRead, GoesOn, Leaves, Settles, Slots, Swept;
    var s' := Acted(s, Go(p));
    assert Past(k, s'.det[p]);
    if Past(k, s.det[p]) {
      forall q | 0 <= q < |s.det| ensures Past(k, s.det[q]) { assert Past(k, s'.det[q]); }
    }
    assert LocalAt(s, p);
    assert s.det[p].pc == PutRefs(|s.det|);
    forall q | 0 <= q < |s.det| ensures s'.det[q].pc.InB1? {
      if q != p {
        assert Past(k, s'.det[q]) && LocalAt(s, q);
        assert Left(s.det[q]) <= s.det[p].entered;
      }
    }
  }

  /** Beyond the snapshots a PE's step leaves counters and reference slots alone. */
  lemma PastFrame(s: Sys, p: nat, k: nat)
    requires WfSys(s) && CanAct(s, Go(p)) && Past(k, s.det[p])
    ensures var s' := Acted(s, Go(p));
            && s'.refSlot == s.refSlot && s'.team == s.team
            && s'.det == s.det[p := NextDet(|s.det|, s.det[p], s.team.pes[p], Slots(s.refSlot, p), Slots(s.idSlot, p))]
  {
    hide NextDet, Slots;
  }

  /** A PE bound to flag something stays so when any PE steps beyond the snapshots. */
  lemma DoomStays(s: Sys, p: nat, k: nat, q: nat)
    requires WfSys(s) && AllLocal(s) && CanAct(s, Go(p)) && q < |s.det|
    requires Past(k, s.det[p]) && Past(k, s.det[q]) && Past(k, Acted(s, Go(p)).det[p]) && DoomedAt(s, q)
    ensures DoomedAt(Acted(s, Go(p)), q)
  {
    hide NextDet, Slots, Doomed, Acted;
    PastFrame(s, p, k);
    if q == p {
      assert LocalAt(s, q);
      DoomedNext(|s.det|, s.det[p], s.team.pes[p], Slots(s.refSlot, p), Slots(s.idSlot, p));
    }
  }

  lemma StillSettled(s: Sys, p: nat, k: nat)
    requires SysInv(s) && CanAct(s, Go(p)) && Tight(s) && AllPast(s, k) && AllPast(Acted(s, Go(p)), k)
    ensures var s' := Acted(s, Go(p));
            Quiescent(s') || exists q :: 0 <= q < |s'.det| && DoomedAt(s', q)
  {
    hide NextDet, Slots, Doomed, Past, AllLocal, InStep, AllRead, GoesOn, Leaves;
    assert Past(k, s.det[p]) && Past(k, Acted(s, Go(p)).det[p]);
    PastFrame(s, p, k);
    if !Quiescent(s) {
      var q :| 0 <= q < |s.det| && DoomedAt(s, q);
      assert Past(k, s.det[q]);
      DoomStays(s, p, k, q);
    }
  }

  lemma GoSettles(s: Sys, p: nat)
    requires SysInv(s) && CanAct(s, Go(p)) && AllLocal(Acted(s, Go(p))) && DarcCounts.Inv(Acted(s, Go(p)).team)
    ensures Settles(Acted(s, Go(p)))
  {
    hide NextDet, Slots, Past, InStep, AllRead, GoesOn, Leaves, Quiescent, DoomedAt, AllPast, AllLocal, Acted;
    var s' := Acted(s, Go(p));
    forall k | Tight(s) && AllPast(s', k)
      ensures Quiescent(s') || exists q :: 0 <= q < |s.det| && DoomedAt(s', q)
    {
      if AllPast(s, k) {
        StillSettled(s, p, k);
      } else {
        LastIn(s, p, k);
        if forall q :: 0 <= q < |s.det| ==> !DoomedAt(s', q) {
          NobodyDoomedIsQuiescent(s');
        }
      }
    }
  }

  lemma GoInv(s: Sys, p: nat)
    requires SysInv(s) && CanAct(s, Go(p))
    ensures SysInv(Acted(s, Go(p)))
  {
    if s.det[p].pc.Sweep? { StepInv(s.team, SendFinished(p)); }
    GoAllLocal(s, p);
    GoInStep(s, p);
    GoAllRead(s, p);
    GoGoesOn(s, p);
    GoLeaves(s, p);
    GoSettles(s, p);
  }

  lemma {:induction false} TraceInv(s0: Sys, acts: seq<Act>)
    requires Begins(s0) && |s0.det| >= 1 && Trace(s0, acts).Some?
    ensures SysInv(Trace(s0, acts).value)
    decreases |acts|
  {
    if acts == [] {
      BeginsInv(s0);
    } else {
      TraceInv(s0, acts[..|acts| - 1]);
      var s := Trace(s0, acts[..|acts| - 1]).value;
      match acts[|acts| - 1]
      case Env(t) => EnvInv(s, t);
      case Go(p) => GoInv(s, p);
    }
  }

  lemma ExitIsQuiescentIn(s: Sys, p: nat)
    requires WfSys(s) && Tight(s) && AllLocal(s) && Leaves(s) && Settles(s) && p < |s.det| && s.det[p].pc.Exit?
    ensures Quiescent(s)
  {
    var k := s.det[p].iter;
    forall q | 0 <= q < |s.det| ensures Past(k, s.det[q]) && !DoomedAt(s, q) {
      assert LeavesTogether(s, p, q) && !SeesZero(s, q) && LocalAt(s, q);
      assert s.idSlot[q][q] == s.det[q].bid;
    }
    assert AllPast(s, k);
  }

  /** Quiescence: in every run in which the callers keep their handles to themselves, once
      some PE has left the loop no serialized handle is in
      flight between any PEs and no handle besides the callers' exists on any PE. */
  lemma ExitMeansQuiescent(s0: Sys, acts: seq<Act>, p: nat)
    requires Begins(s0) && Tight(s0) && Trace(s0, acts).Some?
    requires p < |Trace(s0, acts).value.det| && Trace(s0, acts).value.det[p].pc.Exit?
    ensures Quiescent(Trace(s0, acts).value)
  {
    TraceLength(s0, acts);
    TraceInv(s0, acts);
    ExitIsQuiescentIn(Trace(s0, acts).value, p);
  }

  lemma ExitAgreesIn(s: Sys, p: nat, q: nat)
    requires SysInv(s) && p < |s.det| && q < |s.det| && s.det[p].pc.Exit?
    ensures s.det[q].iter == s.det[p].iter
    ensures s.det[q].entered == s.det[p].entered == 3 * s.det[p].iter + 1
    ensures Deciding(s.det[q].pc) && !s.det[q].outstanding
  {
    assert LocalAt(s, p) && LocalAt(s, q) && ReadsIds(s, q);
    assert LeavesTogether(s, p, q) && !SeesZero(s, q);
    assert s.idSlot[q][q] == s.det[q].bid;
  }

  /** Exit agreement: when some PE has left the loop, every PE is in the same iteration,
      has entered the same number of barriers, will not enter another one in the loop, and
      sees no reason to go on. This needs no assumption on who holds handles. */
  lemma ExitAgreement(s0: Sys, acts: seq<Act>, p: nat, q: nat)
    requires Begins(s0) && Trace(s0, acts).Some?
    requires p < |Trace(s0, acts).value.det| && Trace(s0, acts).value.det[p].pc.Exit?
    requires q < |Trace(s0, acts).value.det|
    ensures var d, d' := Trace(s0, acts).value.det[p], Trace(s0, acts).value.det[q];
            && d'.iter == d.iter
            && d'.entered == d.entered == 3 * d.iter + 1
            && Deciding(d'.pc) && !d'.outstanding
  {
    TraceLength(s0, acts);
    TraceInv(s0, acts);
    ExitAgreesIn(Trace(s0, acts).value, p, q);
  }

  lemma {:induction false} TraceLength(s0: Sys, acts: seq<Act>)
    requires WfSys(s0) && Trace(s0, acts).Some?
    ensures var s := Trace(s0, acts).value;
            |s.det| == |s0.det| && s.limit == s0.limit && s.own == s0.own
    decreases |acts|
  {
    if acts != [] { TraceLength(s0, acts[..|acts| - 1]); }
  }
}
