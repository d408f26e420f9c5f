/** The quiescence detector of a Darc (`block_on_outstanding`): every PE of the team runs
    a loop of counter snapshots and barriers, one read or put per step, while handles go
    on being cloned, dropped, serialized and received. */
module DarcQuiescence {
  import opened Options
  import opened Sums
  import opened DarcCounts

  /** The place of a PE in the detector; an index counts the iterations of an inner loop. */
  datatype Pc =
    | Start | InInit
    | Wait | Sweep | ReadRefs(i: nat) | ReadLocal | ReadDist | PutRefs(i: nat)
    | InB1 | CheckLocal | CheckDist | CheckRefs(i: nat) | CheckSum
    | InB2 | PutIds(i: nat)
    | InB3 | ReadIds(i: nat)
    | Exit

  /** The local variables of one call. `entered` counts the barriers entered so far,
      `iter` is the barrier id kept across iterations, `bid` the one to advertise. */
  datatype Det = Det(
    pc: Pc,
    entered: nat,
    iter: nat,
    bid: nat,
    outstanding: bool,
    prev: seq<nat>,
    snap: seq<nat>,
    snapLocal: nat,
    snapDist: nat,
    sum: nat)

  /** `limit[p]` is the number of local handles (`1 + extra_cnt`) PE `p` does not wait for,
      `own[p]` how many of them its caller holds throughout the call. `refSlot[w][d]` is
      the `mode_ref_cnt` slot and `idSlot[w][d]` the `mode_barrier` slot that PE `w` writes
      on PE `d`. */
  datatype Sys = Sys(
    team: Team,
    limit: seq<nat>,
    own: seq<nat>,
    det: seq<Det>,
    refSlot: seq<seq<nat>>,
    idSlot: seq<seq<nat>>)

  datatype Act = Env(t: Step) | Go(p: nat)

  predicate InBar(pc: Pc) {
    pc.InInit? || pc.InB1? || pc.InB2? || pc.InB3?
  }

  /** How many barriers a PE has left. */
  function Left(d: Det): int {
    if InBar(d.pc) then d.entered - 1 else d.entered
  }

  predicate Sized(s: Sys) {
    var n := |s.team.pes|;
    && DarcCounts.Wf(s.team)
    && |s.limit| == n && |s.own| == n && |s.det| == n && |s.refSlot| == n && |s.idSlot| == n
    && (forall w :: 0 <= w < n ==> |s.refSlot[w]| == n)
    && (forall w :: 0 <= w < n ==> |s.idSlot[w]| == n)
  }

  predicate Ranged(n: nat, d: Det) {
    match d.pc
    case ReadRefs(i) => i <= n && |d.snap| == i && |d.prev| == n
    case PutRefs(i) => i <= n && |d.snap| == n && |d.prev| == n
    case CheckRefs(i) => i <= n && |d.snap| == n && |d.prev| == n
    case PutIds(i) => i <= n && |d.snap| == n && |d.prev| == n
    case ReadIds(i) => i <= n && |d.snap| == n && |d.prev| == n
    case Start => true
    case InInit => true
    case Wait => |d.prev| == n
    case Sweep => |d.prev| == n
    case _ => |d.snap| == n && |d.prev| == n
  }

  predicate WfSys(s: Sys) {
    Sized(s) && forall p :: 0 <= p < |s.det| ==> Ranged(|s.det|, s.det[p])
  }

  /** During the call a caller neither clones, serializes nor drops its own handles. */
  predicate EnvOk(s: Sys, t: Step)
    requires WfSys(s)
  {
    && DarcCounts.Enabled(s.team, t)
    && match t
       case Serialize(p, _) => s.det[p].pc.Start? || s.team.pes[p].local > s.own[p]
       case Clone(p) => s.det[p].pc.Start? || s.team.pes[p].local > s.own[p]
       case Drop(p) => s.team.pes[p].local > s.own[p]
       case _ => true
  }

  predicate CanAct(s: Sys, a: Act)
    requires WfSys(s)
  {
    match a
    case Env(t) => EnvOk(s, t)
    case Go(p) =>
      && p < |s.det| && !s.det[p].pc.Exit?
      && (InBar(s.det[p].pc) ==> forall q :: 0 <= q < |s.det| ==> s.det[q].entered >= s.det[p].entered)
      && (s.det[p].pc.Wait? ==> s.team.pes[p].local <= s.limit[p])
  }

  /** The next local state of a PE. `me` are its counters, `refs` the `mode_ref_cnt` and
      `ids` the `mode_barrier` slots it reads. */
  function NextDet(n: nat, d: Det, me: Inner, refs: seq<nat>, ids: seq<nat>): (d': Det)
    requires Ranged(n, d) && !d.pc.Exit?
    requires |me.totalRef| == n && |refs| == n && |ids| == n
    ensures Ranged(n, d')
  {
    match d.pc
    case Start => d.(pc := InInit, entered := d.entered + 1)
    case InInit => d.(pc := Wait, iter := 1, prev := Zeroes(n))
    case Wait => d.(pc := Sweep, outstanding := false, bid := d.iter)
    case Sweep => d.(pc := ReadRefs(0), snap := [])
    case ReadRefs(i) =>
      if i < n then d.(pc := ReadRefs(i + 1), snap := d.snap + [me.totalRef[i]]) else d.(pc := ReadLocal)
    case ReadLocal => d.(pc := ReadDist, snapLocal := me.totalLocal)
    case ReadDist => d.(pc := PutRefs(0), snapDist := me.totalDist)
    case PutRefs(i) =>
      if i == n then d.(pc := InB1, entered := d.entered + 1)
      else if d.prev[i] != d.snap[i] then d.(pc := PutRefs(i + 1), outstanding := true, bid := 0)
      else d.(pc := PutRefs(i + 1))
    case InB1 => d.(pc := CheckLocal)
    case CheckLocal => d.(pc := CheckDist, outstanding := d.outstanding || d.snapLocal != me.totalLocal)
    case CheckDist => d.(pc := CheckRefs(0), outstanding := d.outstanding || d.snapDist != me.totalDist, sum := 0)
    case CheckRefs(i) =>
      if i == n then d.(pc := CheckSum)
      else d.(pc := CheckRefs(i + 1), outstanding := d.outstanding || d.snap[i] != me.totalRef[i],
              sum := d.sum + refs[i])
    case CheckSum =>
      var out := d.outstanding || d.sum != d.snapDist;
      d.(pc := InB2, entered := d.entered + 1, outstanding := out, bid := if out then 0 else d.bid)
    case InB2 => d.(pc := PutIds(0))
    case PutIds(i) =>
      if i == n then d.(pc := InB3, entered := d.entered + 1) else d.(pc := PutIds(i + 1))
    case InB3 => d.(pc := ReadIds(0))
    case ReadIds(i) =>
      if i < n then d.(pc := ReadIds(i + 1), outstanding := d.outstanding || ids[i] == 0)
      else if d.outstanding then d.(pc := Wait, iter := d.iter + 1, prev := d.snap)
      else d.(pc := Exit)
  }

  /** The slots PE `p` can read: entry `w` is the one PE `w` writes. */
  function Slots(m: seq<seq<nat>>, p: nat): (c: seq<nat>)
    requires forall w :: 0 <= w < |m| ==> p < |m[w]|
    ensures |c| == |m|
  {
    seq(|m|, w requires 0 <= w < |m| => m[w][p])
  }

  function Acted(s: Sys, a: Act): (s': Sys)
    requires WfSys(s) && CanAct(s, a)
    ensures WfSys(s') && |s'.det| == |s.det| && s'.limit == s.limit && s'.own == s.own
  {
    match a
    case Env(t) => s.(team := DarcCounts.Apply(s.team, t))
    case Go(p) =>
      var n, d := |s.det|, s.det[p];
      var d' := NextDet(n, d, s.team.pes[p], Slots(s.refSlot, p), Slots(s.idSlot, p));
      var s' := s.(det := s.det[p := d']);
      match d.pc
      case Sweep => s'.(team := DarcCounts.Apply(s.team, SendFinished(p)))
      case PutRefs(i) =>
        if i < n && d.prev[i] != d.snap[i] then
          s'.(refSlot := s.refSlot[p := s.refSlot[p][i := d.snap[i]]])
        else s'
      case PutIds(i) =>
        if i < n then
          var row: seq<nat> := s.idSlot[p][i := d.bid];
          s'.(idSlot := s.idSlot[p := row])
        else s'
      case _ => s'
  }

  function Trace(s0: Sys, acts: seq<Act>): (r: Option<Sys>)
    requires WfSys(s0)
    ensures r.Some? ==> WfSys(r.value)
  {
    if acts == [] then Some(s0)
    else
      var prefix := Trace(s0, acts[..|acts| - 1]);
      var a := acts[|acts| - 1];
      if prefix.Some? && CanAct(prefix.value, a) then Some(Acted(prefix.value, a)) else None
  }

  /** Any state of the counters in which every caller holds its handles; the slots may
      still carry what an earlier call on the same Darc left in them. */
  ghost predicate Begins(s: Sys) {
    && WfSys(s) && DarcCounts.Inv(s.team)
    && (forall p :: 0 <= p < |s.det| ==> s.det[p].pc == Start && s.det[p].entered == 0)
    && (forall p :: 0 <= p < |s.det| ==> s.team.pes[p].local >= s.own[p])
    && (forall w, d :: 0 <= w < |s.det| && 0 <= d < |s.det| ==> s.refSlot[w][d] <= s.team.pes[w].totalRef[d])
  }

  /** Every caller holds all the handles its PE does not wait for. This is so for the
      conversions between kinds of Darcs; the clean-up after the last drop holds none. */
  predicate Tight(s: Sys) {
    s.own == s.limit
  }

  /** No handle is in flight and no PE holds one besides its caller's. */
  ghost predicate Quiescent(s: Sys)
    requires WfSys(s)
  {
    && (forall p :: 0 <= p < |s.det| ==> s.team.flight[p] == Zeroes(|s.det|))
    && (forall p :: 0 <= p < |s.det| ==> s.team.pes[p].local == s.own[p])
  }
}
