/** Requests on one processing element: launching them, the results that come back, and the
    counters and references that keep track of them. Every atomic operation is a step of its
    own, so runs are the interleavings of any number of launching and delivering threads. */
module Requests {
  import opened Options
  import opened Sums
  import opened Arch

  /** The outstanding-request counters: one per team, one for the world, one per task group. */
  datatype Counter = TeamC(t: nat) | WorldC | GroupC(g: nat)

  /** A request. `dst` is the world id of its destination, or none for all members of its team.
      Launching counts it in `counted` and then submits it; `phases` says how far each
      destination's result has come:
        0 not back, 1 inserted, 2 announced, 3 taken off the team's counter, 4 off the
        world's, 5 off the group's, 6 its reference released.
      `arcs` counts references held as raw pointers, `cnt` and `data` are what the caller's
      handle reads, and `returned` records what each destination sent back. */
  datatype Req<T> = Req(
    team: nat, group: Option<nat>, dst: Option<nat>,
    counted: set<Counter>, submitted: bool, phases: map<nat, nat>,
    arcs: int, cnt: int, data: map<nat, T>, held: bool, returned: map<nat, T>)

  datatype Sys<T> = Sys(reqs: seq<Req<T>>, counters: map<Counter, int>)

  datatype Step<T> =
    | Launch(team: nat, group: Option<nat>, dst: Option<nat>)
    | Count(i: nat, c: Counter)
    | Submit(i: nat)
    | Insert(i: nat, w: nat, v: T)
    | Announce(i: nat, w: nat)
    | Skip(i: nat, w: nat)
    | TakeOff(i: nat, w: nat)
    | Release(i: nat, w: nat)
    | DropHandle(i: nat)

  function Value<T>(s: Sys<T>, c: Counter): int {
    if c in s.counters then s.counters[c] else 0
  }

  function Counters<T>(r: Req<T>): set<Counter> {
    {TeamC(r.team), WorldC} + if r.group.Some? then {GroupC(r.group.value)} else {}
  }

  /** The phase in which a result has left a counter. */
  function LeftBy(c: Counter): nat {
    match c
    case TeamC(_) => 3
    case WorldC => 4
    case GroupC(_) => 5
  }

  /** The counter a result leaves next, if any. */
  function NextCounter<T>(r: Req<T>, phase: nat): Option<Counter> {
    if phase == 2 then Some(TeamC(r.team))
    else if phase == 3 then Some(WorldC)
    else if phase == 4 && r.group.Some? then Some(GroupC(r.group.value))
    else None
  }

  /** How many results have not come as far as phase `k`. */
  function Below(phases: map<nat, nat>, k: nat): nat {
    |BelowSet(phases, k)|
  }

  function BelowSet(phases: map<nat, nat>, k: nat): set<nat> {
    set w | w in phases && phases[w] < k
  }

  // ---------------------------------------------------------------- steps

  /** World ids of a team's members, in team order. */
  function Members(t: Team): (ms: seq<nat>)
    requires Fits(t)
    ensures |ms| == t.arch.numPes
  {
    seq(t.arch.numPes, i requires 0 <= i < t.arch.numPes => Member(t, i))
  }

  function Member(t: Team, i: nat): (w: nat)
    requires Fits(t) && i < t.arch.numPes
    ensures WorldPe(t, i) == Ok(w)
  {
    MembersResolve(t, i);
    WorldPe(t, i).id
  }

  function Destinations(t: Team, dst: Option<nat>): set<nat>
    requires Fits(t)
  {
    if dst.Some? then {dst.value} else Elements(Members(t))
  }

  function Elements(ms: seq<nat>): set<nat> {
    set w | w in ms
  }

  function NumDestinations(t: Team, dst: Option<nat>): nat {
    if dst.Some? then 1 else t.arch.numPes
  }

  /** A new request, before it is counted: one raw reference from the conversion, the others
      from the loop that raises the count. */
  function NewReq<T>(teams: seq<Team>, t: nat, group: Option<nat>, dst: Option<nat>): Req<T>
    requires t < |teams| && Fits(teams[t])
  {
    var n := NumDestinations(teams[t], dst);
    Req(t, group, dst, {}, false, map w | w in Destinations(teams[t], dst) :: 0,
        n, n, map[], true, map[])
  }

  /** Where a result from world id `w` is kept. */
  function Slot<T>(teams: seq<Team>, r: Req<T>, w: nat): nat
    requires r.team < |teams|
  {
    if r.dst.Some? then 0
    else
      var p := TeamPe(teams[r.team], w);
      if p.Ok? then p.id else 0
  }

  predicate At<T>(s: Sys<T>, i: nat, w: nat, phase: nat) {
    i < |s.reqs| && s.reqs[i].submitted && w in s.reqs[i].phases && s.reqs[i].phases[w] == phase
  }

  predicate Enabled<T>(teams: seq<Team>, s: Sys<T>, a: Step<T>) {
    match a
    case Launch(t, group, dst) => t < |teams| && NumDestinations(teams[t], dst) > 0
    case Count(i, c) => i < |s.reqs| && !s.reqs[i].submitted && c in Counters(s.reqs[i]) - s.reqs[i].counted
    case Submit(i) => i < |s.reqs| && !s.reqs[i].submitted && s.reqs[i].counted == Counters(s.reqs[i])
    case Insert(i, w, v) => At(s, i, w, 0)
    case Announce(i, w) => At(s, i, w, 1)
    case Skip(i, w) => At(s, i, w, 0) && !s.reqs[i].held
    case TakeOff(i, w) => At(s, i, w, 2) || At(s, i, w, 3) || At(s, i, w, 4)
    case Release(i, w) => At(s, i, w, 5)
    case DropHandle(i) => i < |s.reqs|
  }

  ghost predicate TeamsFit(teams: seq<Team>) {
    forall t :: 0 <= t < |teams| ==> Fits(teams[t])
  }

  ghost predicate Placed<T>(teams: seq<Team>, s: Sys<T>) {
    TeamsFit(teams) && forall i :: 0 <= i < |s.reqs| ==> s.reqs[i].team < |teams|
  }

  function Moved<T>(r: Req<T>, w: nat, phase: nat): Req<T> {
    r.(phases := r.phases[w := phase])
  }

  /** The request a step leaves in place of request `r`. */
  function Changed<T>(teams: seq<Team>, r: Req<T>, a: Step<T>): Req<T>
    requires r.team < |teams| && !a.Launch?
  {
    match a
    case Count(_, c) => r.(counted := r.counted + {c})
    case Submit(_) => r.(submitted := true)
    case Insert(_, w, v) =>
      Moved(r, w, 1).(data := r.data[Slot(teams, r, w) := v], returned := r.returned[w := v])
    case Announce(_, w) => Moved(r, w, 2).(cnt := r.cnt - 1)
    case Skip(_, w) => Moved(r, w, 2)
    case TakeOff(_, w) => if w in r.phases then Moved(r, w, r.phases[w] + 1) else r
    case Release(_, w) => Moved(r, w, 6).(arcs := r.arcs - 1)
    case DropHandle(_) => r.(held := false)
  }

  /** What a step adds to a counter. */
  function Delta<T>(teams: seq<Team>, r: Req<T>, a: Step<T>, c: Counter): int
    requires r.team < |teams|
  {
    match a
    case Count(_, c') => if c == c' then NumDestinations(teams[r.team], r.dst) else 0
    case TakeOff(_, w) => if w in r.phases && NextCounter(r, r.phases[w]) == Some(c) then -1 else 0
    case _ => 0
  }

  ghost function Apply<T>(teams: seq<Team>, s: Sys<T>, a: Step<T>): Sys<T>
    requires Enabled(teams, s, a) && Placed(teams, s)
  {
    if a.Launch? then s.(reqs := s.reqs + [NewReq(teams, a.team, a.group, a.dst)])
    else
      var r := s.reqs[a.i];
      Sys(s.reqs[a.i := Changed(teams, r, a)],
          map c | c in s.counters.Keys + Counters(r) :: Value(s, c) + Delta(teams, r, a, c))
  }

  // ---------------------------------------------------------------- what every run keeps

  /** A request's part of a counter: its results that have not left it. */
  function Share<T>(r: Req<T>, c: Counter): nat {
    if c in r.counted then Below(r.phases, LeftBy(c)) else 0
  }

  function Shares<T>(reqs: seq<Req<T>>, c: Counter): (s: seq<nat>)
    ensures |s| == |reqs|
  {
    seq(|reqs|, i requires 0 <= i < |reqs| => Share(reqs[i], c))
  }

  /** The results that have not left counter `c`. */
  function Owed<T>(reqs: seq<Req<T>>, c: Counter): nat {
    Sum(Shares(reqs, c))
  }

  ghost predicate Conserved<T>(s: Sys<T>) {
    forall c :: Value(s, c) == Owed(s.reqs, c)
  }

  /** The bookkeeping of one request. */
  ghost predicate Kept<T>(teams: seq<Team>, r: Req<T>) {
    && r.team < |teams| && Fits(teams[r.team])
    && r.phases.Keys == Destinations(teams[r.team], r.dst)
    && |r.phases| == NumDestinations(teams[r.team], r.dst)
    && r.counted <= Counters(r)
    && (r.submitted ==> r.counted == Counters(r))
    && (!r.submitted ==> forall w :: w in r.phases ==> r.phases[w] == 0)
    && (forall w :: w in r.phases ==> r.phases[w] <= 6)
    && r.arcs == Below(r.phases, 6)
    && r.cnt >= Below(r.phases, 2)
  }

  /** While the caller holds the handle, it sees exactly the results that have come back, each
      in the slot of its sender. */
  ghost predicate Shown<T>(teams: seq<Team>, r: Req<T>)
    requires r.team < |teams|
  {
    r.held ==>
      && r.cnt == Below(r.phases, 2)
      && (forall w :: w in r.phases && r.phases[w] >= 1 ==>
            && w in r.returned && Slot(teams, r, w) in r.data
            && r.data[Slot(teams, r, w)] == r.returned[w])
      && (forall k :: k in r.data ==> exists w :: w in r.phases && Slot(teams, r, w) == k)
  }

  ghost predicate Inv<T>(teams: seq<Team>, s: Sys<T>) {
    && Placed(teams, s)
    && (forall i :: 0 <= i < |s.reqs| ==> Kept(teams, s.reqs[i]) && Shown(teams, s.reqs[i]))
    && Conserved(s)
  }

  // ---------------------------------------------------------------- counting phases

  lemma BelowMove(phases: map<nat, nat>, w: nat, p: nat, k: nat)
    requires w in phases && phases[w] <= p
    ensures Below(phases[w := p], k) == Below(phases, k) - (if phases[w] < k <= p then 1 else 0)
  {
    var before, after := BelowSet(phases, k), BelowSet(phases[w := p], k);
    if phases[w] < k <= p {
      assert after == before - {w};
    } else {
      assert after == before;
    }
  }

  lemma BelowAll(phases: map<nat, nat>, k: nat)
    requires forall w :: w in phases ==> phases[w] < k
    ensures Below(phases, k) == |phases|
  {
    assert BelowSet(phases, k) == phases.Keys;
  }

  lemma BelowZeroIff(phases: map<nat, nat>, k: nat)
    ensures Below(phases, k) == 0 <==> forall w :: w in phases ==> phases[w] >= k
  {
    var s := BelowSet(phases, k);
    if s != {} { var w :| w in s; }
    if exists w :: w in phases && phases[w] < k {
      var w :| w in phases && phases[w] < k;
      assert w in s;
    }
  }

  // ---------------------------------------------------------------- destinations

  lemma {:induction false} IncreasingSetSize(ms: seq<nat>)
    requires forall i, j :: 0 <= i < j < |ms| ==> ms[i] < ms[j]
    ensures |Elements(ms)| == |ms|
  {
    if ms != [] {
      var n := |ms| - 1;
      IncreasingSetSize(ms[..n]);
      assert ms == ms[..n] + [ms[n]];
      assert ms[n] !in ms[..n];
      assert Elements(ms) == Elements(ms[..n]) + {ms[n]};
    }
  }

  lemma DestinationsCount(t: Team, dst: Option<nat>)
    requires Fits(t)
    ensures |Destinations(t, dst)| == NumDestinations(t, dst)
  {
    if dst.None? {
      var ms := Members(t);
      forall i, j | 0 <= i < j < |ms| ensures ms[i] < ms[j] { MembersIncrease(t, i, j); }
      IncreasingSetSize(ms);
    }
  }

  /** Different destinations use different slots. */
  lemma SlotsDiffer<T>(teams: seq<Team>, r: Req<T>, v: nat, w: nat)
    requires Kept(teams, r) && v in r.phases && w in r.phases && v != w
    ensures Slot(teams, r, v) != Slot(teams, r, w)
  {
    var t := teams[r.team];
    if r.dst.None? {
      SlotOfMember(t, v);
      SlotOfMember(t, w);
    }
  }

  lemma SlotOfMember(t: Team, w: nat)
    requires Fits(t) && w in Members(t)
    ensures TeamPe(t, w).Ok? && TeamPe(t, w).id < t.arch.numPes && Members(t)[TeamPe(t, w).id] == w
  {
    var i :| 0 <= i < |Members(t)| && Members(t)[i] == w;
    MembersResolve(t, i);
    FitsNoneStuck(t);
    NestedInverse(t, i, w);
  }

  // ---------------------------------------------------------------- steps keep the bookkeeping

  lemma NewKept<T>(teams: seq<Team>, t: nat, group: Option<nat>, dst: Option<nat>)
    requires t < |teams| && Fits(teams[t])
    ensures var r: Req<T> := NewReq(teams, t, group, dst);
            Kept(teams, r) && Shown(teams, r) && forall c :: Share(r, c) == 0
  {
    var r: Req<T> := NewReq(teams, t, group, dst);
    DestinationsCount(teams[t], dst);
    assert |r.phases| == |r.phases.Keys|;
    BelowAll(r.phases, 6);
    BelowAll(r.phases, 2);
  }

  lemma MovedKept<T>(r: Req<T>, w: nat, p: nat)
    requires w in r.phases && r.phases[w] <= p
    ensures Moved(r, w, p).phases.Keys == r.phases.Keys && |Moved(r, w, p).phases| == |r.phases|
  {
    assert r.phases[w := p].Keys == r.phases.Keys;
    assert |r.phases[w := p]| == |r.phases[w := p].Keys| && |r.phases| == |r.phases.Keys|;
  }

  /** Moving a result keeps the bookkeeping when references and the handle's count follow. */
  lemma MoveKeeps<T>(teams: seq<Team>, r: Req<T>, r': Req<T>, w: nat, p: nat)
    requires Kept(teams, r) && r.submitted && w in r.phases && r.phases[w] <= p <= 6
    requires r' == r.(phases := r'.phases, arcs := r'.arcs, cnt := r'.cnt, data := r'.data, returned := r'.returned)
    requires r'.phases == r.phases[w := p]
    requires r'.arcs == r.arcs - if r.phases[w] < 6 <= p then 1 else 0
    requires r'.cnt == r.cnt || (r'.cnt == r.cnt - 1 && r.phases[w] < 2 <= p)
    ensures Kept(teams, r')
  {
    hide Below, Destinations, NumDestinations, Fits;
    MovedKept(r, w, p);
    BelowMove(r.phases, w, p, 6);
    BelowMove(r.phases, w, p, 2);
  }

  lemma ChangedKept<T>(teams: seq<Team>, s: Sys<T>, a: Step<T>)
    requires Inv(teams, s) && Enabled(teams, s, a) && !a.Launch?
    ensures Kept(teams, Changed(teams, s.reqs[a.i], a))
  {
    hide Below, Destinations, NumDestinations, Fits, Conserved, Shown, Slot;
    var r := s.reqs[a.i];
    var r' := Changed(teams, r, a);
    assert Kept(teams, r);
    if a.Insert? || a.Announce? || a.Skip? || a.TakeOff? || a.Release? {
      MoveKeeps(teams, r, r', a.w, r'.phases[a.w]);
    }
  }

  lemma SameSlots<T>(teams: seq<Team>, r: Req<T>, r': Req<T>)
    requires r.team == r'.team < |teams| && r.dst == r'.dst
    ensures forall w :: Slot(teams, r, w) == Slot(teams, r', w)
  {
  }

  lemma InsertShown<T>(teams: seq<Team>, r: Req<T>, w: nat, v: T)
    requires Kept(teams, r) && Shown(teams, r) && w in r.phases && r.phases[w] == 0
    ensures Shown(teams, Changed(teams, r, Insert(0, w, v)))
  {
    hide Below, Slot, Fits, Destinations, NumDestinations;
    var r' := Changed(teams, r, Insert(0, w, v));
    SameSlots(teams, r, r');
    BelowMove(r.phases, w, 1, 2);
    forall u | u in r.phases && u != w ensures Slot(teams, r, u) != Slot(teams, r, w) {
      SlotsDiffer(teams, r, u, w);
    }
  }

  /** Moving a result further, or dropping the handle, shows the caller nothing new. */
  lemma MoveShown<T>(teams: seq<Team>, r: Req<T>, r': Req<T>)
    requires r.team == r'.team < |teams| && r.dst == r'.dst && Shown(teams, r)
    requires r'.data == r.data && r'.returned == r.returned && r'.phases.Keys == r.phases.Keys
    requires forall w :: w in r.phases && r'.phases[w] >= 1 && r'.held ==> r.phases[w] >= 1
    requires r'.held ==> r.held && r'.cnt - Below(r'.phases, 2) == r.cnt - Below(r.phases, 2)
    ensures Shown(teams, r')
  {
    hide Below, Slot;
    SameSlots(teams, r, r');
  }

  lemma ChangedShown<T>(teams: seq<Team>, s: Sys<T>, a: Step<T>)
    requires Inv(teams, s) && Enabled(teams, s, a) && !a.Launch?
    ensures Shown(teams, Changed(teams, s.reqs[a.i], a))
  {
    hide Below, Destinations, NumDestinations, Fits, Conserved, Slot, Shown;
    var r := s.reqs[a.i];
    var r' := Changed(teams, r, a);
    assert Kept(teams, r) && Shown(teams, r);
    if a.Insert? {
      InsertShown(teams, r, a.w, a.v);
    } else {
      if a.Announce? || a.Skip? || a.TakeOff? || a.Release? {
        BelowMove(r.phases, a.w, r'.phases[a.w], 2);
      }
      MoveShown(teams, r, r');
    }
  }

  /** A step changes a request's part of each counter by what it adds to the counter. */
  lemma ChangedShare<T>(teams: seq<Team>, s: Sys<T>, a: Step<T>, c: Counter)
    requires Inv(teams, s) && Enabled(teams, s, a) && !a.Launch?
    ensures var r := s.reqs[a.i];
            Share(Changed(teams, r, a), c) == Share(r, c) + Delta(teams, r, a, c)
  {
    hide Below, Destinations, Fits, Conserved, Shown, Slot;
    var r := s.reqs[a.i];
    var r' := Changed(teams, r, a);
    assert Kept(teams, r);
    if a.Insert? || a.Announce? || a.Skip? || a.TakeOff? || a.Release? {
      BelowMove(r.phases, a.w, r'.phases[a.w], LeftBy(c));
    } else if a.Count? {
      BelowAll(r.phases, LeftBy(c));
    }
  }

  lemma ShareBound<T>(teams: seq<Team>, r: Req<T>, a: Step<T>, c: Counter)
    requires r.team < |teams| && c !in Counters(r)
    requires a.Count? ==> a.c in Counters(r)
    ensures Delta(teams, r, a, c) == 0
  {
  }

  lemma OwedUpdate<T>(reqs: seq<Req<T>>, i: nat, r: Req<T>, c: Counter)
    requires i < |reqs|
    ensures Owed(reqs[i := r], c) == Owed(reqs, c) - Share(reqs[i], c) + Share(r, c)
  {
    assert Shares(reqs[i := r], c) == Shares(reqs, c)[i := Share(r, c)];
    SumUpdate(Shares(reqs, c), i, Share(r, c));
  }

  lemma OwedAppend<T>(reqs: seq<Req<T>>, r: Req<T>, c: Counter)
    ensures Owed(reqs + [r], c) == Owed(reqs, c) + Share(r, c)
  {
    assert Shares(reqs + [r], c) == Shares(reqs, c) + [Share(r, c)];
    SumAppend(Shares(reqs, c), Share(r, c));
  }

  lemma StepConserves<T>(teams: seq<Team>, s: Sys<T>, a: Step<T>)
    requires Inv(teams, s) && Enabled(teams, s, a)
    ensures Conserved(Apply(teams, s, a))
  {
    hide Owed, Share, Kept, Shown, Changed, Fits, Delta;
    var s' := Apply(teams, s, a);
    forall c ensures Value(s', c) == Owed(s'.reqs, c) {
      if a.Launch? {
        NewKept<T>(teams, a.team, a.group, a.dst);
        OwedAppend(s.reqs, NewReq(teams, a.team, a.group, a.dst), c);
      } else {
        var r := s.reqs[a.i];
        ChangedShare(teams, s, a, c);
        OwedUpdate(s.reqs, a.i, Changed(teams, r, a), c);
        if c !in Counters(r) { ShareBound(teams, r, a, c); }
      }
    }
  }

  lemma KeptTeam<T>(teams: seq<Team>, r: Req<T>)
    requires Kept(teams, r)
    ensures r.team < |teams|
  {
  }

  lemma StepInv<T>(teams: seq<Team>, s: Sys<T>, a: Step<T>)
    requires Inv(teams, s) && Enabled(teams, s, a)
    ensures Inv(teams, Apply(teams, s, a))
  {
    hide Conserved, Kept, Shown, Changed, Fits, Delta, NewReq, Counters;
    StepConserves(teams, s, a);
    if a.Launch? {
      NewKept<T>(teams, a.team, a.group, a.dst);
    } else {
      ChangedKept(teams, s, a);
      ChangedShown(teams, s, a);
      KeptTeam(teams, Changed(teams, s.reqs[a.i], a));
    }
  }
}
