/** The detector does come to an end: once no handle is in flight or made any more, at most two
    further iterations follow, each PE has a bounded number of steps left, and a run that
    cannot go on has every PE outside the loop. */
module DarcQuiescenceExit {
  import opened Options
  import opened Arith
  import opened Sums
  import opened DarcCounts
  import opened DarcQuiescence
  import opened DarcQuiescenceLocal
  import opened DarcQuiescenceProof

  /** Steps that make no handle and send none. */
  predicate QuietAct(a: Act) {
    match a
    case Go(_) => true
    case Env(t) => t.Drop? || t.SendFinished? || t.Deliver?
  }

  ghost predicate NoFlight(s: Sys)
    requires WfSys(s)
  {
    forall p :: 0 <= p < |s.det| ==> s.team.flight[p] == Zeroes(|s.det|)
  }

  /** The counters the detector looks at. */
  predicate SameTotals(me: Inner, me': Inner) {
    me'.totalLocal == me.totalLocal && me'.totalDist == me.totalDist && me'.totalRef == me.totalRef
  }

  lemma QuietStepFrame(s: Team, t: Step, p: nat)
    requires Wf(s) && Enabled(s, t) && p < |s.pes| && (t.Drop? || t.SendFinished? || t.Deliver?)
    ensures SameTotals(s.pes[p], Apply(s, t).pes[p]) && Apply(s, t).flight == s.flight
  {
  }

  lemma QuietFrame(s: Sys, a: Act)
    requires WfSys(s) && CanAct(s, a) && QuietAct(a)
    ensures forall p :: 0 <= p < |s.det| ==> SameTotals(s.team.pes[p], Acted(s, a).team.pes[p])
    ensures Acted(s, a).team.flight == s.team.flight
  {
    hide NextDet, Slots, Apply, Enabled;
    forall p | 0 <= p < |s.det| ensures SameTotals(s.team.pes[p], Acted(s, a).team.pes[p]) {
      if a.Env? {
        QuietStepFrame(s.team, a.t, p);
      } else if s.det[a.p].pc.Sweep? {
        SweepEnabled(s, a.p);
        QuietStepFrame(s.team, SendFinished(a.p), p);
      }
    }
    if a.Env? && |s.det| > 0 {
      QuietStepFrame(s.team, a.t, 0);
    } else if a.Go? && s.det[a.p].pc.Sweep? {
      SweepEnabled(s, a.p);
      QuietStepFrame(s.team, SendFinished(a.p), 0);
    }
  }

  lemma SweepEnabled(s: Sys, p: nat)
    requires WfSys(s) && p < |s.det|
    ensures Enabled(s.team, SendFinished(p))
  {
  }

  // ---------------------------------------------------------------- the last two iterations

  /** Snapshots taken in the present iteration hold what the counters hold now. */
  predicate Fresh(n: nat, d: Det, me: Inner)
    requires Ranged(n, d) && |me.totalRef| == n
  {
    && (!d.pc.Wait? && !d.pc.Sweep? ==> forall j :: 0 <= j < |d.snap| && j < n ==> d.snap[j] == me.totalRef[j])
    && (!d.pc.Wait? && !d.pc.Sweep? && !d.pc.ReadRefs? && !d.pc.ReadLocal? ==> d.snapLocal == me.totalLocal)
    && (!d.pc.Wait? && (!Gathering(d.pc) || d.pc.PutRefs?) ==> d.snapDist == me.totalDist)
  }

  /** Nothing is flagged. `col` are the counts that other PEs hold for this one. */
  predicate Clean(n: nat, d: Det, me: Inner, col: seq<nat>)
    requires Ranged(n, d) && |me.totalRef| == n && |col| == n && Begun(d.pc)
  {
    && d.prev == me.totalRef
    && (!d.pc.Wait? ==> !d.outstanding && d.bid == d.iter)
    && (d.pc.CheckRefs? ==> d.sum == Sum(col[..d.pc.i]))
    && (d.pc.CheckSum? ==> d.sum == Sum(col))
  }

  /** With the counters still since some PE was in iteration `k` and none beyond: iteration
      `k + 1` takes the final snapshots, iteration `k + 2` finds nothing to flag. */
  predicate Late(n: nat, k: nat, d: Det, me: Inner, col: seq<nat>)
    requires Ranged(n, d) && |me.totalRef| == n && |col| == n
  {
    && Iter(d) <= k + 2
    && (Begun(d.pc) && d.iter >= k + 1 ==> Fresh(n, d, me))
    && (Begun(d.pc) && d.iter == k + 2 ==> Clean(n, d, me, col))
  }

  lemma NextFresh(n: nat, d: Det, me: Inner, refs: seq<nat>, ids: seq<nat>)
    requires Ranged(n, d) && !d.pc.Exit? && |me.totalRef| == n && |refs| == n && |ids| == n
    requires Begun(d.pc) && Fresh(n, d, me)
    ensures Fresh(n, NextDet(n, d, me, refs, ids), me)
  {
  }

  lemma NextClean(n: nat, d: Det, me: Inner, refs: seq<nat>, ids: seq<nat>, col: seq<nat>)
    requires Ranged(n, d) && !d.pc.Exit? && |me.totalRef| == n && |refs| == n && |ids| == n && |col| == n
    requires Begun(d.pc) && Fresh(n, d, me) && Clean(n, d, me, col)
    requires d.pc.CheckRefs? && d.pc.i < n ==> refs[d.pc.i] == col[d.pc.i]
    requires d.pc.CheckSum? ==> Sum(col) == me.totalDist
    requires d.pc.ReadIds? && d.pc.i < n ==> ids[d.pc.i] != 0
    ensures var d' := NextDet(n, d, me, refs, ids);
            Begun(d'.pc) && d'.iter == d.iter && Clean(n, d', me, col)
  {
    if d.pc.CheckRefs? {
      if d.pc.i < n {
        assert col[..d.pc.i + 1] == col[..d.pc.i] + [col[d.pc.i]];
        SumAppend(col[..d.pc.i], col[d.pc.i]);
      } else {
        assert col[..n] == col;
      }
    } else if d.pc.CheckDist? {
      assert col[..0] == [];
    }
  }

  /** Going on to a further iteration makes this iteration's snapshots the previous ones. */
  lemma NextIteration(n: nat, d: Det, me: Inner, refs: seq<nat>, ids: seq<nat>)
    requires Ranged(n, d) && !d.pc.Exit? && |me.totalRef| == n && |refs| == n && |ids| == n
    ensures var d' := NextDet(n, d, me, refs, ids);
            || Iter(d') == Iter(d)
            || (Iter(d) == 0 && d.pc.InInit? && d'.iter == 1 && d'.pc.Wait?)
            || (d.pc == ReadIds(n) && d'.iter == d.iter + 1 && d'.pc.Wait? && d'.prev == d.snap)
  {
  }

  lemma NextLate(n: nat, k: nat, d: Det, me: Inner, refs: seq<nat>, ids: seq<nat>, col: seq<nat>)
    requires Ranged(n, d) && !d.pc.Exit? && |me.totalRef| == n && |refs| == n && |ids| == n && |col| == n
    requires Late(n, k, d, me, col)
    requires Iter(d) == k + 2 && d.pc.CheckRefs? && d.pc.i < n ==> refs[d.pc.i] == col[d.pc.i]
    requires Iter(d) == k + 2 && d.pc.CheckSum? ==> Sum(col) == me.totalDist
    requires Iter(d) == k + 2 && d.pc.ReadIds? && d.pc.i < n ==> ids[d.pc.i] != 0
    ensures Late(n, k, NextDet(n, d, me, refs, ids), me, col)
  {
    hide NextDet, Clean;
    var d' := NextDet(n, d, me, refs, ids);
    NextIteration(n, d, me, refs, ids);
    NextBegun(n, d, me, refs, ids);
    if Begun(d.pc) && d.iter >= k + 1 {
      NextFresh(n, d, me, refs, ids);
      if d.iter == k + 2 {
        NextClean(n, d, me, refs, ids, col);
      } else if d'.iter == k + 2 {
        WaitClean(n, d', me, col);
      }
    }
  }

  lemma NextBegun(n: nat, d: Det, me: Inner, refs: seq<nat>, ids: seq<nat>)
    requires Ranged(n, d) && !d.pc.Exit? && |me.totalRef| == n && |refs| == n && |ids| == n
    ensures Begun(NextDet(n, d, me, refs, ids).pc) <==> !d.pc.Start?
  {
  }

  lemma WaitClean(n: nat, d: Det, me: Inner, col: seq<nat>)
    requires Ranged(n, d) && |me.totalRef| == n && |col| == n && d.pc.Wait?
    requires |d.prev| == n && forall j :: 0 <= j < n ==> d.prev[j] == me.totalRef[j]
    ensures Clean(n, d, me, col)
  {
    assert d.prev == me.totalRef;
  }

  // ---------------------------------------------------------------- all PEs together

  predicate LateAt(s: Sys, k: nat, p: nat)
    requires WfSys(s) && p < |s.det|
  {
    Late(|s.det|, k, s.det[p], s.team.pes[p], TotalColumn(s.team.pes, p))
  }

  ghost predicate AllLate(s: Sys, k: nat)
    requires WfSys(s)
  {
    forall p :: 0 <= p < |s.det| ==> LateAt(s, k, p)
  }

  /** A PE checking slots in iteration `k + 2` finds the final counts in them. */
  lemma SlotIsTotal(s: Sys, k: nat, p: nat, w: nat)
    requires WfSys(s) && AllLocal(s) && InStep(s) && AllLate(s, k) && p < |s.det| && w < |s.det|
    requires s.det[p].pc.CheckRefs? && s.det[p].iter == k + 2
    ensures s.refSlot[w][p] == s.team.pes[w].totalRef[p]
  {
    assert LocalAt(s, p) && LocalAt(s, w) && LateAt(s, k, w);
    assert Left(s.det[p]) <= s.det[w].entered;
  }

  /** A PE reading ids in iteration `k + 2` finds no zero. */
  lemma IdNotZero(s: Sys, k: nat, p: nat, w: nat)
    requires WfSys(s) && AllLocal(s) && InStep(s) && AllLate(s, k) && p < |s.det| && w < |s.det|
    requires s.det[p].pc.ReadIds? && s.det[p].iter == k + 2
    ensures s.idSlot[w][p] != 0
  {
    assert LocalAt(s, p) && LocalAt(s, w) && LateAt(s, k, w);
    assert Left(s.det[p]) <= s.det[w].entered;
  }

  /** With nothing in flight, what a PE ever sent is what the others ever received from it. */
  lemma SumIsSent(s: Sys, p: nat)
    requires WfSys(s) && DarcCounts.Inv(s.team) && NoFlight(s) && p < |s.det|
    ensures Sum(TotalColumn(s.team.pes, p)) == s.team.pes[p].totalDist
  {
    assert Conserved(s.team, p);
    SumZeroes(s.team.flight[p]);
  }

  lemma SameColumn(pes: seq<Inner>, pes': seq<Inner>, p: nat)
    requires |pes'| == |pes|
    requires forall q :: 0 <= q < |pes| ==> p < |pes[q].totalRef| && p < |pes'[q].totalRef|
    requires forall q :: 0 <= q < |pes| ==> SameTotals(pes[q], pes'[q])
    ensures TotalColumn(pes, p) == TotalColumn(pes', p)
  {
  }

  /** `Late` looks at the totals only. */
  lemma LateFrame(n: nat, k: nat, d: Det, me: Inner, me': Inner, col: seq<nat>)
    requires Ranged(n, d) && |me.totalRef| == n && |col| == n && SameTotals(me, me')
    requires Late(n, k, d, me, col)
    ensures Late(n, k, d, me', col)
  {
  }

  lemma GoLate(s: Sys, k: nat, p: nat)
    requires SysInv(s) && NoFlight(s) && AllLate(s, k) && CanAct(s, Go(p))
    ensures var n, me, col := |s.det|, s.team.pes[p], TotalColumn(s.team.pes, p);
            Late(n, k, OwnNext(s, p), me, col)
  {
    hide NextDet, Late, AllRead, GoesOn, Leaves, Settles, TotalColumn;
    var d := s.det[p];
    assert LateAt(s, k, p);
    ColumnAt(s.team.pes, p, 0);
    if Iter(d) == k + 2 && d.pc.CheckRefs? && d.pc.i < |s.det| {
      SlotIsTotal(s, k, p, d.pc.i);
      ColumnAt(s.team.pes, p, d.pc.i);
    } else if Iter(d) == k + 2 && d.pc.ReadIds? && d.pc.i < |s.det| {
      IdNotZero(s, k, p, d.pc.i);
    }
    SumIsSent(s, p);
    NextLate(|s.det|, k, d, s.team.pes[p], Slots(s.refSlot, p), Slots(s.idSlot, p), TotalColumn(s.team.pes, p));
  }

  lemma ColumnAt(pes: seq<Inner>, p: nat, q: nat)
    requires (forall q :: 0 <= q < |pes| ==> p < |pes[q].totalRef|) && q < |pes|
    ensures |TotalColumn(pes, p)| == |pes| && TotalColumn(pes, p)[q] == pes[q].totalRef[p]
  {
  }

  lemma QuietLate(s: Sys, k: nat, a: Act)
    requires SysInv(s) && NoFlight(s) && AllLate(s, k) && CanAct(s, a) && QuietAct(a)
    ensures AllLate(Acted(s, a), k) && NoFlight(Acted(s, a))
  {
    hide NextDet, Late, AllLocal, InStep, AllRead, GoesOn, Leaves, Settles, TotalColumn, Acted, SameTotals, Slots;
    var s' := Acted(s, a);
    QuietFrame(s, a);
    ActedDet(s, a);
    forall p | 0 <= p < |s.det| ensures LateAt(s', k, p) {
      assert LateAt(s, k, p);
      SameColumn(s.team.pes, s'.team.pes, p);
      ColumnAt(s.team.pes, p, p);
      if a == Go(p) { GoLate(s, k, p); }
      LateFrame(|s.det|, k, s'.det[p], s.team.pes[p], s'.team.pes[p], TotalColumn(s.team.pes, p));
    }
  }

  /** What PE `p` is about to become. */
  function OwnNext(s: Sys, p: nat): Det
    requires WfSys(s) && p < |s.det| && !s.det[p].pc.Exit?
  {
    NextDet(|s.det|, s.det[p], s.team.pes[p], Slots(s.refSlot, p), Slots(s.idSlot, p))
  }

  lemma ActedDet(s: Sys, a: Act)
    requires WfSys(s) && CanAct(s, a)
    ensures a.Env? ==> Acted(s, a).det == s.det
    ensures a.Go? ==> Ranged(|s.det|, s.det[a.p]) && !s.det[a.p].pc.Exit?
    ensures a.Go? ==> Acted(s, a).det == s.det[a.p := OwnNext(s, a.p)]
  {
    hide NextDet, Slots;
    if a.Go? { GoDet(s, a.p); }
  }

  // ---------------------------------------------------------------- how many steps are left

  /** The place of a PE within its iteration. */
  function Place(n: nat, pc: Pc): nat {
    match pc
    case Start => 0
    case InInit => 1
    case Wait => 0
    case Sweep => 1
    case ReadRefs(i) => 2 + i
    case ReadLocal => n + 3
    case ReadDist => n + 4
    case PutRefs(i) => n + 5 + i
    case InB1 => 2 * n + 6
    case CheckLocal => 2 * n + 7
    case CheckDist => 2 * n + 8
    case CheckRefs(i) => 2 * n + 9 + i
    case CheckSum => 3 * n + 10
    case InB2 => 3 * n + 11
    case PutIds(i) => 3 * n + 12 + i
    case InB3 => 4 * n + 13
    case ReadIds(i) => 4 * n + 14 + i
    case Exit => 5 * n + 15
  }

  /** How far a PE has come. */
  function Rank(n: nat, d: Det): nat {
    Iter(d) * (5 * n + 16) + Place(n, d.pc)
  }

  lemma PlaceBound(n: nat, d: Det)
    requires Ranged(n, d)
    ensures Place(n, d.pc) < 5 * n + 16
  {
  }

  lemma NextPlace(n: nat, d: Det, me: Inner, refs: seq<nat>, ids: seq<nat>)
    requires Ranged(n, d) && !d.pc.Exit? && |me.totalRef| == n && |refs| == n && |ids| == n
    ensures var d' := NextDet(n, d, me, refs, ids);
            Iter(d') == Iter(d) + 1 || (Iter(d') == Iter(d) && Place(n, d'.pc) > Place(n, d.pc))
  {
  }

  lemma RankGrows(n: nat, i: nat, i': nat, a: nat, a': nat)
    requires a < 5 * n + 16 && (i' == i + 1 || (i' == i && a' > a))
    ensures i' * (5 * n + 16) + a' > i * (5 * n + 16) + a
  {
    assert (i + 1) * (5 * n + 16) == i * (5 * n + 16) + (5 * n + 16);
  }

  lemma GoRank(s: Sys, a: Act, p: nat)
    requires WfSys(s) && CanAct(s, a) && p < |s.det|
    ensures Rank(|s.det|, Acted(s, a).det[p]) >= Rank(|s.det|, s.det[p]) + Goes(p)(a)
  {
    hide NextDet, Slots, Acted, Place, Iter;
    ActedDet(s, a);
    if a == Go(p) {
      var d' := Acted(s, a).det[p];
      PlaceBound(|s.det|, s.det[p]);
      NextPlace(|s.det|, s.det[p], s.team.pes[p], Slots(s.refSlot, p), Slots(s.idSlot, p));
      RankGrows(|s.det|, Iter(s.det[p]), Iter(d'), Place(|s.det|, s.det[p].pc), Place(|s.det|, d'.pc));
    }
  }

  function Goes(p: nat): Act -> nat {
    (a: Act) => if a == Go(p) then 1 else 0
  }

  lemma RankBound(n: nat, k: nat, d: Det)
    requires Ranged(n, d) && Iter(d) <= k + 2
    ensures Rank(n, d) < (k + 3) * (5 * n + 16)
  {
    PlaceBound(n, d);
    RankGrows(n, Iter(d), Iter(d) + 1, Place(n, d.pc), 0);
    MulMonotone(Iter(d) + 1, k + 3, 5 * n + 16, 5 * n + 16);
  }

  // ---------------------------------------------------------------- a PE can always go on

  lemma {:induction false} LeastEntered(det: seq<Det>, m: nat) returns (p: nat)
    requires 0 < m <= |det|
    ensures p < m && forall q :: 0 <= q < m ==> det[p].entered <= det[q].entered
  {
    p := 0;
    if m > 1 {
      p := LeastEntered(det, m - 1);
      if det[m - 1].entered < det[p].entered { p := m - 1; }
    }
  }

  /** No deadlock: with no more local handles than the callers tolerate, some PE that is not out
      can make a step. */
  lemma SomebodyCanGo(s: Sys)
    requires SysInv(s) && (forall p :: 0 <= p < |s.det| ==> s.team.pes[p].local <= s.limit[p])
    requires exists p :: 0 <= p < |s.det| && !s.det[p].pc.Exit?
    ensures exists p :: 0 <= p < |s.det| && CanAct(s, Go(p))
  {
    hide Settles, AllRead, GoesOn, LocalInv;
    var p := LeastEntered(s.det, |s.det|);
    if s.det[p].pc.Exit? {
      var q :| 0 <= q < |s.det| && !s.det[q].pc.Exit?;
      forall r | 0 <= r < |s.det| ensures s.det[r].entered == s.det[p].entered { ExitAgreesIn(s, p, r); }
      ExitAgreesIn(s, p, q);
      assert CanAct(s, Go(q));
    } else {
      assert CanAct(s, Go(p));
    }
  }

  // ---------------------------------------------------------------- the end of every run

  lemma {:induction false} QuietTrace(s: Sys, acts: seq<Act>, k: nat, p: nat)
    requires SysInv(s) && NoFlight(s) && AllLate(s, k) && p < |s.det|
    requires Trace(s, acts).Some? && forall i :: 0 <= i < |acts| ==> QuietAct(acts[i])
    ensures var s' := Trace(s, acts).value;
            && SysInv(s') && NoFlight(s') && AllLate(s', k) && |s'.det| == |s.det|
            && Rank(|s.det|, s'.det[p]) >= Rank(|s.det|, s.det[p]) + Tally(acts, Goes(p))
    decreases |acts|
  {
    SysWf(s);
    hide SysInv, NoFlight, AllLate, Rank, Acted, CanAct, WfSys;
    if acts != [] {
      var before, a := acts[..|acts| - 1], acts[|acts| - 1];
      QuietTrace(s, before, k, p);
      var m := Trace(s, before).value;
      match a {
        case Env(t) => EnvKeeps(m, t);
        case Go(q) => GoKeeps(m, q);
      }
      QuietLate(m, k, a);
      GoRank(m, a, p);
    }
  }

  lemma EnvKeeps(s: Sys, t: Step)
    requires SysInv(s) && WfSys(s) && CanAct(s, Env(t))
    ensures SysInv(Acted(s, Env(t)))
  {
    EnvInv(s, t);
  }

  lemma GoKeeps(s: Sys, p: nat)
    requires SysInv(s) && WfSys(s) && CanAct(s, Go(p))
    ensures SysInv(Acted(s, Go(p)))
  {
    GoInv(s, p);
  }

  lemma StartsLate(s: Sys, k: nat)
    requires WfSys(s) && forall p :: 0 <= p < |s.det| ==> Iter(s.det[p]) <= k
    ensures AllLate(s, k)
  {
    forall p | 0 <= p < |s.det| ensures LateAt(s, k, p) { assert Iter(s.det[p]) <= k; }
  }

  /** Completeness: take any run up to a state in which no handle is in flight and no PE is beyond
      iteration `k`, and continue it in any way in which no handle is made or sent. Then no PE
      gets beyond iteration `k + 2`, every PE makes a bounded number of steps, and as long as a PE
      is not out and no PE has more local handles than its caller tolerates, some PE can go on. */
  lemma DetectorEnds(s0: Sys, before: seq<Act>, after: seq<Act>, k: nat, p: nat)
    requires Begins(s0) && Trace(s0, before).Some? && p < |Trace(s0, before).value.det|
    requires NoFlight(Trace(s0, before).value)
    requires forall q :: 0 <= q < |Trace(s0, before).value.det| ==> Iter(Trace(s0, before).value.det[q]) <= k
    requires forall i :: 0 <= i < |after| ==> QuietAct(after[i])
    requires Trace(Trace(s0, before).value, after).Some?
    ensures var s := Trace(Trace(s0, before).value, after).value;
            && |s.det| == |Trace(s0, before).value.det|
            && Iter(s.det[p]) <= k + 2
            && Tally(after, Goes(p)) < (k + 3) * (5 * |s.det| + 16)
            && ((forall q :: 0 <= q < |s.det| ==> s.team.pes[q].local <= s.limit[q]) ==>
                  || (forall q :: 0 <= q < |s.det| ==> s.det[q].pc.Exit?)
                  || (exists q :: 0 <= q < |s.det| && CanAct(s, Go(q))))
  {
    hide SysInv, Begins, Rank, CanAct, Late, AllLate, NoFlight, Iter, WfSys;
    BeginsWf(s0);
    TraceLength(s0, before);
    TraceInv(s0, before);
    var m := Trace(s0, before).value;
    SysWf(m);
    StartsLate(m, k);
    QuietTrace(m, after, k, p);
    EndState(m, Trace(m, after).value, after, k, p);
  }

  lemma BeginsWf(s: Sys)
    requires Begins(s)
    ensures WfSys(s)
  {
  }

  lemma SysWf(s: Sys)
    requires SysInv(s)
    ensures WfSys(s)
  {
  }

  lemma EndState(m: Sys, s: Sys, after: seq<Act>, k: nat, p: nat)
    requires WfSys(m) && SysInv(s) && AllLate(s, k) && |s.det| == |m.det| && p < |s.det|
    requires Rank(|s.det|, s.det[p]) >= Rank(|s.det|, m.det[p]) + Tally(after, Goes(p))
    ensures Iter(s.det[p]) <= k + 2 && Tally(after, Goes(p)) < (k + 3) * (5 * |s.det| + 16)
    ensures (forall q :: 0 <= q < |s.det| ==> s.team.pes[q].local <= s.limit[q]) ==>
              || (forall q :: 0 <= q < |s.det| ==> s.det[q].pc.Exit?)
              || (exists q :: 0 <= q < |s.det| && CanAct(s, Go(q)))
  {
    assert LateAt(s, k, p);
    hide Rank, CanAct, Late, AllLate, AllLocal, InStep, AllRead, GoesOn, Leaves, Settles, Tally;
    LateIter(s, k, p);
    RankBound(|s.det|, k, s.det[p]);
    if (exists q :: 0 <= q < |s.det| && !s.det[q].pc.Exit?) && (forall q :: 0 <= q < |s.det| ==> s.team.pes[q].local <= s.limit[q]) {
      SomebodyCanGo(s);
    }
  }

  lemma LateIter(s: Sys, k: nat, p: nat)
    requires WfSys(s) && p < |s.det| && LateAt(s, k, p)
    ensures Iter(s.det[p]) <= k + 2
  {
  }
}
