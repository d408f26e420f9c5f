/** The counters of a distributed atomic reference counter (Darc): what each operation
    does to the counters of one PE, and the whole team as a transition system with the
    serialized handles and the `FinishedAm` acknowledgements in flight. */
module DarcCounts {
  import opened Options
  import opened Sums

  /** The counters of one PE. `ref[q]` counts the handles received from PE `q` that have
      not been acknowledged to it yet; the `total` fields only ever grow. */
  datatype Inner = Inner(
    local: nat,
    totalLocal: nat,
    dist: int,
    totalDist: nat,
    ref: seq<nat>,
    totalRef: seq<nat>)

  function Zeroes(n: nat): seq<nat> {
    seq(n, _ => 0)
  }

  function NewInner(n: nat): Inner {
    Inner(1, 1, 0, 0, Zeroes(n), Zeroes(n))
  }

  function Serialized(d: Inner, cnt: nat): Inner {
    d.(dist := d.dist + cnt, totalDist := d.totalDist + cnt)
  }

  function Deserialized(d: Inner, src: nat): Inner
    requires src < |d.ref| == |d.totalRef|
  {
    d.(local := d.local + 1, totalLocal := d.totalLocal + 1,
       ref := d.ref[src := d.ref[src] + 1], totalRef := d.totalRef[src := d.totalRef[src] + 1])
  }

  function Cloned(d: Inner): Inner {
    d.(local := d.local + 1, totalLocal := d.totalLocal + 1)
  }

  /** All reference counts handed over to acknowledgements. */
  function Swept(d: Inner): Inner {
    d.(ref := Zeroes(|d.ref|))
  }

  /** Dropping the last local handle also acknowledges what was received. */
  function Dropped(d: Inner): Inner
    requires d.local >= 1
  {
    var d' := d.(local := d.local - 1);
    if d.local == 1 then Swept(d') else d'
  }

  function Finished(d: Inner, cnt: nat): Inner {
    d.(dist := d.dist - cnt)
  }

  /** An acknowledgement: `cnt` handles of PE `pe` are done with. */
  datatype FinishedAm = FinishedAm(pe: nat, cnt: nat)

  /** The acknowledgements sent for a reference count slice, in PE order. */
  function Acks(ref: seq<nat>): seq<FinishedAm> {
    if ref == [] then []
    else
      var n := |ref| - 1;
      Acks(ref[..n]) + (if ref[n] > 0 then [FinishedAm(n, ref[n])] else [])
  }

  /** The counters as the runtime updates them in place. */
  class DarcInner {
    const numPes: nat
    var localCnt: nat
    var totalLocalCnt: nat
    var distCnt: int
    var totalDistCnt: nat
    const refCnt: array<nat>
    const totalRefCnt: array<nat>

    ghost predicate Valid()
      reads this
    {
      refCnt.Length == numPes && totalRefCnt.Length == numPes && refCnt != totalRefCnt
    }

    ghost function View(): Inner
      reads this, refCnt, totalRefCnt
    {
      Inner(localCnt, totalLocalCnt, distCnt, totalDistCnt, refCnt[..], totalRefCnt[..])
    }

    constructor (numPes: nat)
      ensures Valid() && this.numPes == numPes && View() == NewInner(numPes)
    {
      this.numPes := numPes;
      localCnt, totalLocalCnt, distCnt, totalDistCnt := 1, 1, 0, 0;
      refCnt := new nat[numPes](_ => 0);
      totalRefCnt := new nat[numPes](_ => 0);
    }

    method IncPeRefCount(pe: nat, amt: nat) returns (prev: nat)
      requires Valid() && pe < numPes
      modifies refCnt, totalRefCnt
      ensures Valid() && prev == old(refCnt[pe])
      ensures View() == old(View()).(ref := old(refCnt[..])[pe := prev + amt],
                                     totalRef := old(totalRefCnt[..])[pe := old(totalRefCnt[pe]) + amt])
    {
      totalRefCnt[pe] := totalRefCnt[pe] + amt;
      prev := refCnt[pe];
      refCnt[pe] := prev + amt;
    }

    method SerializeUpdateCnts(cnt: nat)
      modifies this`distCnt, this`totalDistCnt
      ensures View() == Serialized(old(View()), cnt)
    {
      distCnt := distCnt + cnt;
      totalDistCnt := totalDistCnt + cnt;
    }

    method DeserializeUpdateCnts(srcPe: nat)
      requires Valid() && srcPe < numPes
      modifies this`localCnt, this`totalLocalCnt, refCnt, totalRefCnt
      ensures Valid() && View() == Deserialized(old(View()), srcPe)
    {
      var _ := IncPeRefCount(srcPe, 1);
      localCnt := localCnt + 1;
      totalLocalCnt := totalLocalCnt + 1;
    }

    method Clone()
      modifies this`localCnt, this`totalLocalCnt
      ensures View() == Cloned(old(View()))
    {
      localCnt := localCnt + 1;
      totalLocalCnt := totalLocalCnt + 1;
    }

    /** Swaps every reference count to 0 and sends it back to the PE it belongs to. */
    method SendFinished() returns (reqs: seq<FinishedAm>)
      requires Valid()
      modifies refCnt
      ensures Valid() && View() == Swept(old(View()))
      ensures reqs == Acks(old(refCnt[..]))
    {
      reqs := [];
      var pe := 0;
      while pe < refCnt.Length
        modifies refCnt
        invariant 0 <= pe <= refCnt.Length
        invariant forall q :: 0 <= q < pe ==> refCnt[q] == 0
        invariant forall q :: pe <= q < refCnt.Length ==> refCnt[q] == old(refCnt[q])
        invariant totalRefCnt[..] == old(totalRefCnt[..])
        invariant reqs == Acks(old(refCnt[..])[..pe])
      {
        var cnt := refCnt[pe];
        refCnt[pe] := 0;
        assert old(refCnt[..])[..pe + 1][..pe] == old(refCnt[..])[..pe];
        if cnt > 0 {
          reqs := reqs + [FinishedAm(pe, cnt)];
        }
        pe := pe + 1;
      }
      assert old(refCnt[..])[..pe] == old(refCnt[..]);
      assert refCnt[..] == Zeroes(refCnt.Length);
    }

    method Drop() returns (reqs: seq<FinishedAm>)
      requires Valid() && localCnt >= 1
      modifies this`localCnt, refCnt
      ensures Valid() && View() == Dropped(old(View()))
      ensures reqs == if old(localCnt) == 1 then Acks(old(refCnt[..])) else []
    {
      reqs := [];
      var cnt := localCnt;
      localCnt := localCnt - 1;
      if cnt == 1 {
        if exists q :: 0 <= q < refCnt.Length && refCnt[q] > 0 {
          reqs := SendFinished();
        } else {
          NoAcks(refCnt[..]);
          assert refCnt[..] == Zeroes(refCnt.Length);
        }
      }
    }

    method FinishedExec(cnt: nat)
      modifies this`distCnt
      ensures View() == Finished(old(View()), cnt)
    {
      distCnt := distCnt - cnt;
    }
  }

  lemma {:induction false} NoAcks(ref: seq<nat>)
    requires forall q :: 0 <= q < |ref| ==> ref[q] == 0
    ensures Acks(ref) == []
  {
    if ref != [] { NoAcks(ref[..|ref| - 1]); }
  }

  // ---------------------------------------------------------------- the team

  /** `flight[p][q]` counts the handles serialized by `p` still on their way to `q`;
      `acks[p]` are the counts carried by the `FinishedAm`s on their way to `p`. */
  datatype Team = Team(pes: seq<Inner>, flight: seq<seq<nat>>, acks: seq<seq<nat>>)

  datatype Step =
    | Serialize(p: nat, dsts: seq<nat>)
    | Deserialize(src: nat, dst: nat)
    | Clone(p: nat)
    | Drop(p: nat)
    | SendFinished(p: nat)
    | Deliver(p: nat, k: nat)

  function NewTeam(n: nat): Team {
    Team(seq(n, _ => NewInner(n)), seq(n, _ => Zeroes(n)), seq(n, _ => []))
  }

  /** One more handle in flight to each destination. */
  function Addressed(row: seq<nat>, dsts: seq<nat>): (row': seq<nat>)
    ensures |row'| == |row|
  {
    if dsts == [] then row
    else
      var r := Addressed(row, dsts[1..]);
      if dsts[0] < |r| then r[dsts[0] := r[dsts[0]] + 1] else r
  }

  /** The acknowledgements of a sweep put on their way. */
  function Acknowledged(acks: seq<seq<nat>>, ref: seq<nat>): seq<seq<nat>>
    requires |acks| == |ref|
  {
    seq(|acks|, q requires 0 <= q < |acks| => if ref[q] > 0 then acks[q] + [ref[q]] else acks[q])
  }

  /** `FinishedAm`s added one by one to the messages under way. */
  function Posted(acks: seq<seq<nat>>, ams: seq<FinishedAm>): (acks': seq<seq<nat>>)
    ensures |acks'| == |acks|
  {
    if ams == [] then acks
    else
      var before := Posted(acks, ams[..|ams| - 1]);
      var am := ams[|ams| - 1];
      if am.pe < |before| then before[am.pe := before[am.pe] + [am.cnt]] else before
  }

  lemma PostedOne(acks: seq<seq<nat>>, ams: seq<FinishedAm>, am: FinishedAm)
    requires am.pe < |acks|
    ensures var before := Posted(acks, ams);
            Posted(acks, ams + [am]) == before[am.pe := before[am.pe] + [am.cnt]]
  {
    assert (ams + [am])[..|ams|] == ams;
  }

  lemma AcksLast(ref: seq<nat>, n: nat)
    requires n < |ref|
    ensures Acks(ref[..n + 1]) == Acks(ref[..n]) + if ref[n] > 0 then [FinishedAm(n, ref[n])] else []
  {
    assert ref[..n + 1][..n] == ref[..n];
  }

  lemma {:induction false} PostedAcksUpTo(acks: seq<seq<nat>>, ref: seq<nat>, n: nat)
    requires n <= |ref| == |acks|
    ensures Posted(acks, Acks(ref[..n])) ==
            seq(|acks|, q requires 0 <= q < |acks| => if q < n && ref[q] > 0 then acks[q] + [ref[q]] else acks[q])
  {
    if n == 0 {
      assert Posted(acks, Acks(ref[..0])) == acks;
    } else {
      PostedAcksUpTo(acks, ref, n - 1);
      AcksLast(ref, n - 1);
      if ref[n - 1] > 0 {
        PostedOne(acks, Acks(ref[..n - 1]), FinishedAm(n - 1, ref[n - 1]));
      } else {
        assert Acks(ref[..n]) == Acks(ref[..n - 1]);
      }
    }
  }

  /** The messages a sweep sends are the ones that go on their way in the team model. */
  lemma PostedAcks(acks: seq<seq<nat>>, ref: seq<nat>)
    requires |ref| == |acks|
    ensures Posted(acks, Acks(ref)) == Acknowledged(acks, ref)
  {
    PostedAcksUpTo(acks, ref, |ref|);
    assert ref[..|ref|] == ref;
  }

  predicate Wf(s: Team) {
    var n := |s.pes|;
    && |s.flight| == n && |s.acks| == n
    && (forall p :: 0 <= p < n ==> |s.pes[p].ref| == n && |s.pes[p].totalRef| == n)
    && (forall p :: 0 <= p < n ==> |s.flight[p]| == n)
  }

  predicate Enabled(s: Team, t: Step)
    requires Wf(s)
  {
    var n := |s.pes|;
    match t
    case Serialize(p, dsts) => p < n && s.pes[p].local >= 1 && forall i :: 0 <= i < |dsts| ==> dsts[i] < n
    case Deserialize(src, dst) => src < n && dst < n && s.flight[src][dst] >= 1
    case Clone(p) => p < n && s.pes[p].local >= 1
    case Drop(p) => p < n && s.pes[p].local >= 1
    case SendFinished(p) => p < n
    case Deliver(p, k) => p < n && k < |s.acks[p]|
  }

  function Apply(s: Team, t: Step): (s': Team)
    requires Wf(s) && Enabled(s, t)
    ensures Wf(s') && |s'.pes| == |s.pes|
  {
    match t
    case Serialize(p, dsts) =>
      s.(pes := s.pes[p := Serialized(s.pes[p], |dsts|)], flight := s.flight[p := Addressed(s.flight[p], dsts)])
    case Deserialize(src, dst) =>
      s.(pes := s.pes[dst := Deserialized(s.pes[dst], src)],
         flight := s.flight[src := s.flight[src][dst := s.flight[src][dst] - 1]])
    case Clone(p) => s.(pes := s.pes[p := Cloned(s.pes[p])])
    case Drop(p) =>
      s.(pes := s.pes[p := Dropped(s.pes[p])],
         acks := if s.pes[p].local == 1 then Acknowledged(s.acks, s.pes[p].ref) else s.acks)
    case SendFinished(p) =>
      s.(pes := s.pes[p := Swept(s.pes[p])], acks := Acknowledged(s.acks, s.pes[p].ref))
    case Deliver(p, k) =>
      s.(pes := s.pes[p := Finished(s.pes[p], s.acks[p][k])],
         acks := s.acks[p := s.acks[p][..k] + s.acks[p][k + 1..]])
  }

  /** Reference counts for PE `p` held across the team. */
  function Column(pes: seq<Inner>, p: nat): seq<nat>
    requires forall q :: 0 <= q < |pes| ==> p < |pes[q].ref|
  {
    seq(|pes|, q requires 0 <= q < |pes| => pes[q].ref[p])
  }

  function TotalColumn(pes: seq<Inner>, p: nat): seq<nat>
    requires forall q :: 0 <= q < |pes| ==> p < |pes[q].totalRef|
  {
    seq(|pes|, q requires 0 <= q < |pes| => pes[q].totalRef[p])
  }

  /** What PE `p` serialized is in flight, held and unacknowledged, or being acknowledged. */
  predicate Conserved(s: Team, p: nat)
    requires Wf(s) && p < |s.pes|
  {
    && s.pes[p].dist == Sum(s.flight[p]) + Sum(Column(s.pes, p)) + Sum(s.acks[p])
    && s.pes[p].totalDist == Sum(s.flight[p]) + Sum(TotalColumn(s.pes, p))
  }

  ghost predicate Inv(s: Team) {
    && Wf(s)
    && (forall p :: 0 <= p < |s.pes| ==> Conserved(s, p))
    && (forall p, k :: 0 <= p < |s.pes| && 0 <= k < |s.acks[p]| ==> s.acks[p][k] >= 1)
    && (forall p :: 0 <= p < |s.pes| && s.pes[p].local == 0 ==> s.pes[p].ref == Zeroes(|s.pes|))
  }

  lemma NewTeamInv(n: nat)
    ensures Inv(NewTeam(n))
  {
    var s := NewTeam(n);
    forall p | 0 <= p < n ensures Conserved(s, p) {
      SumZeroes(s.flight[p]);
      SumZeroes(Column(s.pes, p));
      SumZeroes(TotalColumn(s.pes, p));
    }
  }

  lemma {:induction false} AddressedSum(row: seq<nat>, dsts: seq<nat>)
    requires forall i :: 0 <= i < |dsts| ==> dsts[i] < |row|
    ensures Sum(Addressed(row, dsts)) == Sum(row) + |dsts|
  {
    if dsts != [] {
      AddressedSum(row, dsts[1..]);
      var r := Addressed(row, dsts[1..]);
      SumUpdate(r, dsts[0], r[dsts[0]] + 1);
    }
  }

  /** Replacing the counters of PE `q` changes one entry of each column. */
  lemma ColumnUpdate(s: Team, q: nat, d: Inner, p: nat)
    requires Wf(s) && q < |s.pes| && p < |s.pes|
    requires |d.ref| == |s.pes| && |d.totalRef| == |s.pes|
    ensures Column(s.pes[q := d], p) == Column(s.pes, p)[q := d.ref[p]]
    ensures TotalColumn(s.pes[q := d], p) == TotalColumn(s.pes, p)[q := d.totalRef[p]]
    ensures Sum(Column(s.pes[q := d], p)) == Sum(Column(s.pes, p)) - s.pes[q].ref[p] + d.ref[p]
    ensures Sum(TotalColumn(s.pes[q := d], p)) == Sum(TotalColumn(s.pes, p)) - s.pes[q].totalRef[p] + d.totalRef[p]
  {
    SumUpdate(Column(s.pes, p), q, d.ref[p]);
    SumUpdate(TotalColumn(s.pes, p), q, d.totalRef[p]);
  }

  lemma AcknowledgedSum(acks: seq<seq<nat>>, ref: seq<nat>, q: nat)
    requires |acks| == |ref| && q < |acks|
    ensures Sum(Acknowledged(acks, ref)[q]) == Sum(acks[q]) + ref[q]
  {
    SumAppend(acks[q], ref[q]);
  }

  lemma SerializeConserves(s: Team, t: Step, p: nat)
    requires Inv(s) && Enabled(s, t) && p < |s.pes| && t.Serialize?
    ensures Conserved(Apply(s, t), p)
  {
    var s' := Apply(s, t);
    assert Conserved(s, p);
    ColumnUpdate(s, t.p, s'.pes[t.p], p);
    if t.p == p { AddressedSum(s.flight[p], t.dsts); }
  }

  lemma DeserializeConserves(s: Team, t: Step, p: nat)
    requires Inv(s) && Enabled(s, t) && p < |s.pes| && t.Deserialize?
    ensures Conserved(Apply(s, t), p)
  {
    var s' := Apply(s, t);
    assert Conserved(s, p);
    ColumnUpdate(s, t.dst, s'.pes[t.dst], p);
    if t.src == p { SumUpdate(s.flight[p], t.dst, s.flight[p][t.dst] - 1); }
  }

  lemma SweepConserves(s: Team, t: Step, p: nat)
    requires Inv(s) && Enabled(s, t) && p < |s.pes| && (t.Drop? || t.SendFinished?)
    ensures Conserved(Apply(s, t), p)
  {
    var s' := Apply(s, t);
    assert Conserved(s, p);
    ColumnUpdate(s, t.p, s'.pes[t.p], p);
    AcknowledgedSum(s.acks, s.pes[t.p].ref, p);
  }

  lemma DeliverConserves(s: Team, t: Step, p: nat)
    requires Inv(s) && Enabled(s, t) && p < |s.pes| && (t.Deliver? || t.Clone?)
    ensures Conserved(Apply(s, t), p)
  {
    var s' := Apply(s, t);
    assert Conserved(s, p);
    ColumnUpdate(s, t.p, s'.pes[t.p], p);
    if t.Deliver? && t.p == p { SumRemove(s.acks[p], t.k); }
  }

  lemma StepConserves(s: Team, t: Step, p: nat)
    requires Inv(s) && Enabled(s, t) && p < |s.pes|
    ensures Conserved(Apply(s, t), p)
  {
    match t
    case Serialize(_, _) => SerializeConserves(s, t, p);
    case Deserialize(_, _) => DeserializeConserves(s, t, p);
    case Clone(_) => DeliverConserves(s, t, p);
    case Drop(_) => SweepConserves(s, t, p);
    case SendFinished(_) => SweepConserves(s, t, p);
    case Deliver(_, _) => DeliverConserves(s, t, p);
  }

  lemma StepInv(s: Team, t: Step)
    requires Inv(s) && Enabled(s, t)
    ensures Inv(Apply(s, t))
  {
    var s' := Apply(s, t);
    forall p | 0 <= p < |s'.pes| ensures Conserved(s', p) {
      StepConserves(s, t, p);
    }
    forall p, k | 0 <= p < |s'.pes| && 0 <= k < |s'.acks[p]| ensures s'.acks[p][k] >= 1 {
      if k < |s.acks[p]| && s'.acks[p][k] != s.acks[p][k] {
        assert t.Deliver? && t.p == p && s'.acks[p][k] == s.acks[p][k + 1];
      }
    }
  }

  function Run(n: nat, steps: seq<Step>): (r: Option<Team>)
    ensures r.Some? ==> Wf(r.value)
  {
    if steps == [] then Some(NewTeam(n))
    else
      var prefix := Run(n, steps[..|steps| - 1]);
      var t := steps[|steps| - 1];
      if prefix.Some? && Enabled(prefix.value, t) then
        Some(Apply(prefix.value, t))
      else None
  }

  lemma {:induction false} RunInv(n: nat, steps: seq<Step>)
    requires Run(n, steps).Some?
    ensures Inv(Run(n, steps).value) && |Run(n, steps).value.pes| == n
    decreases |steps|
  {
    if steps == [] {
      NewTeamInv(n);
    } else {
      RunInv(n, steps[..|steps| - 1]);
      StepInv(Run(n, steps[..|steps| - 1]).value, steps[|steps| - 1]);
    }
  }

  /** In every reachable state an arriving acknowledgement never takes the distributed
      count of its PE below zero. */
  lemma FinishedNeverUnderflows(n: nat, steps: seq<Step>, p: nat, k: nat)
    requires Run(n, steps).Some? && Enabled(Run(n, steps).value, Deliver(p, k))
    ensures var s := Run(n, steps).value;
            s.pes[p].dist >= s.acks[p][k] >= 1
  {
    RunInv(n, steps);
    var s := Run(n, steps).value;
    assert Conserved(s, p);
    SumAtLeast(s.acks[p], k);
  }

  /** A distributed count is zero exactly when nothing its PE serialized is in flight,
      held unacknowledged, or being acknowledged. */
  lemma DistZeroIff(n: nat, steps: seq<Step>, p: nat)
    requires Run(n, steps).Some? && p < n
    ensures var s := Run(n, steps).value;
            && |s.pes| == n
            && (s.pes[p].dist == 0 <==>
                && s.flight[p] == Zeroes(n)
                && s.acks[p] == []
                && forall q :: 0 <= q < n ==> s.pes[q].ref[p] == 0)
  {
    RunInv(n, steps);
    var s := Run(n, steps).value;
    assert Conserved(s, p);
    if s.pes[p].dist == 0 {
      forall q | 0 <= q < n ensures s.flight[p][q] == 0 && s.pes[q].ref[p] == 0 {
        SumAtLeast(s.flight[p], q);
        SumAtLeast(Column(s.pes, p), q);
      }
    } else if s.flight[p] == Zeroes(n) && forall q :: 0 <= q < n ==> s.pes[q].ref[p] == 0 {
      SumZeroes(s.flight[p]);
      SumZeroes(Column(s.pes, p));
    }
  }

  /** When the last handle is gone everywhere and the messages have arrived, every
      distributed count is back at zero. */
  lemma CountsReturnToZero(n: nat, steps: seq<Step>, p: nat)
    requires Run(n, steps).Some? && p < n
    requires var s := Run(n, steps).value;
             && |s.flight| == n && |s.acks| == n
             && s.flight[p] == Zeroes(n) && s.acks[p] == []
             && forall q :: 0 <= q < |s.pes| ==> s.pes[q].local == 0
    ensures p < |Run(n, steps).value.pes| && Run(n, steps).value.pes[p].dist == 0
  {
    DistZeroIff(n, steps, p);
    RunInv(n, steps);
  }
}
