/** What holds of requests over every run, and the handle a caller reads them through. */
module RequestRuns {
  import opened Options
  import opened Sums
  import opened Arch
  import opened Requests

  function Start<T>(): Sys<T> {
    Sys([], map[])
  }

  lemma StartInv<T>(teams: seq<Team>)
    requires TeamsFit(teams)
    ensures Inv(teams, Start<T>())
  {
  }

  /** The state after a sequence of steps, if each is possible in its turn. */
  ghost function Run<T>(teams: seq<Team>, s: Sys<T>, steps: seq<Step<T>>): (r: Option<Sys<T>>)
    requires Inv(teams, s)
    ensures r.Some? ==> Inv(teams, r.value)
    decreases |steps|
  {
    if steps == [] then Some(s)
    else if Enabled(teams, s, steps[0]) then
      StepInv(teams, s, steps[0]);
      Run(teams, Apply(teams, s, steps[0]), steps[1..])
    else None
  }

  /** In every run each counter is exactly the number of results that have not left it, so none
      is ever taken below zero, and it is zero exactly when no counted result is on its way. */
  lemma CountersExact<T>(teams: seq<Team>, steps: seq<Step<T>>, c: Counter)
    requires TeamsFit(teams) && (StartInv<T>(teams); Run(teams, Start(), steps)).Some?
    ensures (StartInv<T>(teams);
             var s := Run(teams, Start(), steps).value;
             && Value(s, c) == Owed(s.reqs, c) >= 0
             && (Value(s, c) == 0 <==> forall i :: 0 <= i < |s.reqs| ==> HasLeft(s.reqs[i], c)))
  {
    StartInv<T>(teams);
    var s := Run(teams, Start(), steps).value;
    OwedZeroIff(s.reqs, c);
  }

  /** Nothing of a request is on its way in counter `c`. */
  ghost predicate HasLeft<T>(r: Req<T>, c: Counter) {
    c in r.counted ==> forall w :: w in r.phases ==> r.phases[w] >= LeftBy(c)
  }

  lemma OwedZeroIff<T>(reqs: seq<Req<T>>, c: Counter)
    ensures Owed(reqs, c) == 0 <==> forall i :: 0 <= i < |reqs| ==> HasLeft(reqs[i], c)
  {
    hide Below, Sum;
    forall i | 0 <= i < |reqs| ensures Share(reqs[i], c) == 0 <==> HasLeft(reqs[i], c) {
      BelowZeroIff(reqs[i].phases, LeftBy(c));
    }
    if forall i :: 0 <= i < |reqs| ==> HasLeft(reqs[i], c) {
      SumZeroes(Shares(reqs, c));
    }
    if Owed(reqs, c) == 0 {
      forall i | 0 <= i < |reqs| ensures HasLeft(reqs[i], c) {
        SumAtLeast(Shares(reqs, c), i);
      }
    }
  }

  // ---------------------------------------------------------------- later states

  /** A request only goes forward: results do not go back or change. */
  ghost predicate Forward<T>(r: Req<T>, r': Req<T>) {
    && r'.team == r.team && r'.group == r.group && r'.dst == r.dst
    && r'.phases.Keys == r.phases.Keys
    && (forall w :: w in r.phases ==> r.phases[w] <= r'.phases[w])
    && (forall w :: w in r.phases && r.phases[w] >= 1 && w in r.returned ==>
          w in r'.returned && r'.returned[w] == r.returned[w])
    && (r.submitted ==> r'.submitted) && (r'.held ==> r.held)
  }

  ghost predicate AllForward<T>(s: Sys<T>, s': Sys<T>) {
    |s.reqs| <= |s'.reqs| && forall i :: 0 <= i < |s.reqs| ==> Forward(s.reqs[i], s'.reqs[i])
  }

  lemma StepForward<T>(teams: seq<Team>, s: Sys<T>, a: Step<T>)
    requires Inv(teams, s) && Enabled(teams, s, a)
    ensures AllForward(s, Apply(teams, s, a))
  {
    hide Kept, Shown, Conserved;
  }

  lemma {:induction false} RunForward<T>(teams: seq<Team>, s: Sys<T>, steps: seq<Step<T>>)
    requires Inv(teams, s) && Run(teams, s, steps).Some?
    ensures AllForward(s, Run(teams, s, steps).value)
    decreases |steps|
  {
    hide Apply, Forward, Kept, Shown, Conserved;
    if steps == [] {
      ForwardSelf(s);
    } else {
      StepInv(teams, s, steps[0]);
      StepForward(teams, s, steps[0]);
      RunForward(teams, Apply(teams, s, steps[0]), steps[1..]);
      ForwardTrans(s, Apply(teams, s, steps[0]), Run(teams, s, steps).value);
    }
  }

  lemma ForwardSelf<T>(s: Sys<T>)
    ensures AllForward(s, s)
  {
  }

  lemma ForwardTrans<T>(a: Sys<T>, b: Sys<T>, c: Sys<T>)
    requires AllForward(a, b) && AllForward(b, c)
    ensures AllForward(a, c)
  {
    forall i | 0 <= i < |a.reqs| ensures Forward(a.reqs[i], c.reqs[i]) {
      assert Forward(a.reqs[i], b.reqs[i]) && Forward(b.reqs[i], c.reqs[i]);
    }
  }

  // ---------------------------------------------------------------- waiting

  /** Every result of a request is back, and seen by a caller who holds the handle. */
  ghost predicate Arrived<T>(r: Req<T>) {
    && (forall w :: w in r.phases ==> r.phases[w] >= 2)
    && (r.held ==> r.cnt == 0)
  }

  /** Waiting for a team reads its counter, and for the world's team also the world's counter
      in a possibly later state `s2`. When the counter read is zero, every request that was
      submitted before is complete, and stays so. */
  lemma WaitAllArrives<T>(teams: seq<Team>, s1: Sys<T>, steps: seq<Step<T>>, c: Counter, i: nat)
    requires Inv(teams, s1) && Run(teams, s1, steps).Some?
    requires Value(s1, c) == 0 && i < |s1.reqs| && s1.reqs[i].submitted
    requires c == TeamC(s1.reqs[i].team) || c == WorldC
             || (s1.reqs[i].group.Some? && c == GroupC(s1.reqs[i].group.value))
    ensures var s2 := Run(teams, s1, steps).value;
            i < |s2.reqs| && Arrived(s2.reqs[i])
  {
    var s2 := Run(teams, s1, steps).value;
    OwedZeroIff(s1.reqs, c);
    RunForward(teams, s1, steps);
    assert HasLeft(s1.reqs[i], c) && Kept(teams, s1.reqs[i]);
    assert Forward(s1.reqs[i], s2.reqs[i]) && Kept(teams, s2.reqs[i]) && Shown(teams, s2.reqs[i]);
    hide Kept, Below, Conserved, Run;
    BelowZeroIff(s2.reqs[i].phases, 2);
  }

  /** Whatever a result has gone through, it can go on, until it has left every counter and its
      reference is released; and each step brings it further. */
  lemma ResultGoesOn<T>(teams: seq<Team>, s: Sys<T>, i: nat, w: nat, v: T) returns (t: Step<T>)
    requires Inv(teams, s) && i < |s.reqs| && s.reqs[i].submitted && w in s.reqs[i].phases
    requires s.reqs[i].phases[w] < 6
    ensures !t.Launch? && t.i == i && Enabled(teams, s, t)
    ensures var r' := Apply(teams, s, t).reqs[i];
            w in r'.phases && s.reqs[i].phases[w] < r'.phases[w] <= 6
  {
    var p := s.reqs[i].phases[w];
    t := if p == 0 then Insert(i, w, v)
         else if p == 1 then Announce(i, w)
         else if p == 5 then Release(i, w)
         else TakeOff(i, w);
  }

  /** When all results have gone all the way, every counter is back at zero, no raw reference is
      left, and every caller that holds its handle reads zero. */
  lemma AllReleased<T>(teams: seq<Team>, s: Sys<T>)
    requires Inv(teams, s)
    requires forall i, w :: 0 <= i < |s.reqs| && w in s.reqs[i].phases ==> s.reqs[i].phases[w] == 6
    ensures forall c :: Value(s, c) == 0
    ensures forall i :: 0 <= i < |s.reqs| ==> s.reqs[i].arcs == 0 && (s.reqs[i].held ==> s.reqs[i].cnt == 0)
  {
    forall c ensures Value(s, c) == 0 {
      OwedZeroIff(s.reqs, c);
    }
    forall i | 0 <= i < |s.reqs| ensures s.reqs[i].arcs == 0 && (s.reqs[i].held ==> s.reqs[i].cnt == 0) {
      assert Kept(teams, s.reqs[i]) && Shown(teams, s.reqs[i]);
      BelowZeroIff(s.reqs[i].phases, 6);
      BelowZeroIff(s.reqs[i].phases, 2);
    }
  }

  /** The raw references to a request are exactly its results not yet released: a delivery
      always finds the request alive, and the last delivery frees it. */
  lemma ReferencesExact<T>(teams: seq<Team>, s: Sys<T>, i: nat)
    requires Inv(teams, s) && i < |s.reqs|
    ensures var r := s.reqs[i];
            && r.arcs >= 0
            && (r.arcs > 0 <==> exists w :: w in r.phases && r.phases[w] < 6)
  {
    hide Conserved, Shown;
    assert Kept(teams, s.reqs[i]);
    BelowZeroIff(s.reqs[i].phases, 6);
  }

  // ---------------------------------------------------------------- results in order

  /** A request to all members whose caller has seen its count go down to zero. */
  ghost predicate Complete<T>(teams: seq<Team>, r: Req<T>) {
    Kept(teams, r) && Shown(teams, r) && r.dst.None? && r.held && r.cnt == 0
  }

  lemma CompleteArrived<T>(teams: seq<Team>, r: Req<T>, w: nat)
    requires Complete(teams, r) && w in Members(teams[r.team])
    ensures w in r.phases && r.phases[w] >= 2
  {
    hide Slot, Below, Members;
    BelowZeroIff(r.phases, 2);
    assert w in Elements(Members(teams[r.team]));
  }

  lemma MemberSlot(t: Team, j: nat)
    requires Fits(t) && j < t.arch.numPes
    ensures Member(t, j) in Members(t) && TeamPe(t, Member(t, j)) == Ok(j)
  {
    assert Members(t)[j] == Member(t, j);
    FitsNoneStuck(t);
    NestedInverse(t, j, Member(t, j));
  }

  /** Slot `j` holds what team member `j` sent. */
  lemma ResultsInOrder<T>(teams: seq<Team>, r: Req<T>, j: nat)
    requires Complete(teams, r) && j < teams[r.team].arch.numPes
    ensures var w := Member(teams[r.team], j);
            && w in r.returned && j in r.data && r.data[j] == r.returned[w]
  {
    hide Member, Members, Fits, Below, Destinations, NumDestinations, TeamPe;
    var w := Member(teams[r.team], j);
    MemberSlot(teams[r.team], j);
    CompleteArrived(teams, r, w);
    assert Slot(teams, r, w) == j;
  }

  lemma SlotsAreMembers<T>(teams: seq<Team>, r: Req<T>, k: nat)
    requires Complete(teams, r) && k in r.data
    ensures k < teams[r.team].arch.numPes
  {
    hide Fits, Below, Members, TeamPe;
    var w :| w in r.phases && Slot(teams, r, w) == k;
    SlotOfMember(teams[r.team], w);
  }

  /** The caller's result vector: one entry per member of the team, in team order. */
  lemma ResultVector<T>(teams: seq<Team>, r: Req<T>)
    requires Complete(teams, r)
    ensures var t := teams[r.team];
            && |r.data| == t.arch.numPes
            && (forall j :: 0 <= j < t.arch.numPes ==> j in r.data)
            && (forall j :: 0 <= j < t.arch.numPes ==>
                  Member(t, j) in r.returned && r.data[j] == r.returned[Member(t, j)])
  {
    var n := teams[r.team].arch.numPes;
    forall j: nat | j < n
      ensures j in r.data && Member(teams[r.team], j) in r.returned && r.data[j] == r.returned[Member(teams[r.team], j)]
    {
      ResultsInOrder(teams, r, j);
    }
    ResultCount(teams, r);
  }

  lemma ResultCount<T>(teams: seq<Team>, r: Req<T>)
    requires Complete(teams, r)
    ensures |r.data| == teams[r.team].arch.numPes
  {
    KeptTeam(teams, r);
    hide Kept, Shown, Member;
    var n := teams[r.team].arch.numPes;
    forall k: nat ensures k in r.data.Keys <==> k < n {
      if k in r.data { SlotsAreMembers(teams, r, k); }
      if k < n { ResultsInOrder(teams, r, k); }
    }
    CountKeys(r.data.Keys, n);
    assert |r.data| == |r.data.Keys|;
  }

  lemma CountKeys(keys: set<nat>, n: nat)
    requires forall k: nat :: k in keys <==> k < n
    ensures |keys| == n
  {
    var up := seq(n, j requires 0 <= j < n => j);
    forall k: nat ensures k in keys <==> k in up {
      if k in keys { assert up[k] == k; }
    }
    assert keys == Elements(up);
    IncreasingSetSize(up);
  }

  /** In every run: a request to all members whose caller holds the handle and reads zero is
      complete. */
  lemma ZeroMeansComplete<T>(teams: seq<Team>, steps: seq<Step<T>>, i: nat)
    requires TeamsFit(teams) && (StartInv<T>(teams); Run(teams, Start(), steps)).Some?
    requires (StartInv<T>(teams); var s := Run(teams, Start(), steps).value;
              i < |s.reqs| && s.reqs[i].dst.None? && s.reqs[i].held && s.reqs[i].cnt == 0)
    ensures (StartInv<T>(teams); Complete(teams, Run(teams, Start(), steps).value.reqs[i]))
  {
    StartInv<T>(teams);
    var s := Run(teams, Start(), steps).value;
    assert Kept(teams, s.reqs[i]) && Shown(teams, s.reqs[i]);
  }

  // ---------------------------------------------------------------- the handle

  class AmCounters {
    var outstandingReqs: int
    var sendReqCnt: nat

    constructor ()
      ensures outstandingReqs == 0 && sendReqCnt == 0
    {
      outstandingReqs, sendReqCnt := 0, 0;
    }

    method AddSendReq(num: nat)
      modifies this
      ensures outstandingReqs == old(outstandingReqs) + num && sendReqCnt == old(sendReqCnt) + num
    {
      outstandingReqs := outstandingReqs + num;
      sendReqCnt := sendReqCnt + num;
    }
  }

  class MultiRequest<T> {
    const team: Team
    var cnt: int
    var data: map<nat, T>
    var userHandle: bool
    const teamReqs: AmCounters
    const worldReqs: AmCounters
    const groupReqs: Option<AmCounters>

    ghost predicate Separate() {
      && teamReqs != worldReqs
      && (groupReqs.Some? ==> groupReqs.value != teamReqs && groupReqs.value != worldReqs)
    }

    ghost function Owned(): set<object> {
      {this, teamReqs, worldReqs} + if groupReqs.Some? then {groupReqs.value} else {}
    }

    constructor (team: Team, teamReqs: AmCounters, worldReqs: AmCounters, groupReqs: Option<AmCounters>)
      ensures this.team == team && cnt == team.arch.numPes && data == map[] && userHandle
      ensures this.teamReqs == teamReqs && this.worldReqs == worldReqs && this.groupReqs == groupReqs
    {
      this.team, this.teamReqs, this.worldReqs, this.groupReqs := team, teamReqs, worldReqs, groupReqs;
      cnt, data, userHandle := team.arch.numPes, map[], true;
    }

    /** Keeps a result under its sender's team id; a sender outside the team is a panic. */
    method AddResult(pe: nat, v: T) returns (ok: bool)
      modifies this`cnt, this`data
      ensures ok == TeamPe(team, pe).Ok?
      ensures data == if ok then old(data)[TeamPe(team, pe).id := v] else old(data)
      ensures cnt == old(cnt) - if ok then 1 else 0
    {
      var p := TeamPe(team, pe);
      if !p.Ok? {
        return false;
      }
      data := data[p.id := v];
      cnt := cnt - 1;
      return true;
    }

    method UpdateCounters()
      requires Separate()
      modifies Owned() - {this}
      ensures teamReqs.outstandingReqs == old(teamReqs.outstandingReqs) - 1
      ensures worldReqs.outstandingReqs == old(worldReqs.outstandingReqs) - 1
      ensures groupReqs.Some? ==> groupReqs.value.outstandingReqs == old(groupReqs.value.outstandingReqs) - 1
    {
      teamReqs.outstandingReqs := teamReqs.outstandingReqs - 1;
      worldReqs.outstandingReqs := worldReqs.outstandingReqs - 1;
      if groupReqs.Some? {
        groupReqs.value.outstandingReqs := groupReqs.value.outstandingReqs - 1;
      }
    }

    /** Delivers a result: a caller that still holds the handle gets it, and in either case it
        leaves the counters. */
    method Deliver(pe: nat, v: T) returns (added: bool)
      requires Separate() && TeamPe(team, pe).Ok?
      modifies Owned()
      ensures added == old(userHandle) == userHandle
      ensures data == if added then old(data)[TeamPe(team, pe).id := v] else old(data)
      ensures cnt == old(cnt) - if added then 1 else 0
      ensures teamReqs.outstandingReqs == old(teamReqs.outstandingReqs) - 1
      ensures worldReqs.outstandingReqs == old(worldReqs.outstandingReqs) - 1
      ensures groupReqs.Some? ==> groupReqs.value.outstandingReqs == old(groupReqs.value.outstandingReqs) - 1
    {
      added := false;
      if userHandle {
        var ok := AddResult(pe, v);
        added := true;
      }
      UpdateCounters();
    }

    /** Draining the handle once nothing is awaited: the entries in order of their slots, or
        a panic if a slot below the number of entries is missing. */
    method Get() returns (r: Option<seq<T>>)
      requires cnt <= 0
      modifies this`data
      ensures r.Some? <==> forall k :: 0 <= k < |old(data)| ==> k in old(data)
      ensures r.Some? ==> |r.value| == |old(data)|
      ensures r.Some? ==> forall k :: 0 <= k < |old(data)| ==> r.value[k] == old(data)[k]
      ensures r.Some? ==> data == map[]
    {
      var res: seq<T> := [];
      ghost var was := data;
      var n := |data|;
      for pe := 0 to n
        invariant |res| == pe && |data| == n - pe
        invariant forall k :: k in data <==> k in was && k >= pe
        invariant forall k :: k in data ==> data[k] == was[k]
        invariant forall k :: 0 <= k < pe ==> k in was && res[k] == was[k]
      {
        if pe !in data {
          return None;
        }
        res := res + [data[pe]];
        assert |data.Keys - {pe}| == |data.Keys| - 1;
        assert (data - {pe}).Keys == data.Keys - {pe};
        data := data - {pe};
      }
      return Some(res);
    }
  }
}
