/** Teams of processing elements, nested to any depth, and the translation between the ids of
    a team and those of the world. */
module Arch {
  import opened Arith
  import opened Options

  /** `Fault` stands for a division by a zero stride. */
  datatype IdResult = Ok(id: nat) | Err(parentPe: nat, teamPe: nat) | Fault

  /** How a team picks its members among the members of its parent. The ends are inclusive. */
  datatype Arch =
    | GlobalArch(numPes: nat)
    | StridedArch(numPes: nat, startPe: nat, endPe: nat, stride: nat)
    | BlockedArch(numPes: nat, startPe: nat, endPe: nat)

  datatype Team = Root(arch: Arch) | Sub(parent: Team, arch: Arch)

  function ParentPeId(a: Arch, teamPe: nat): IdResult {
    match a
    case GlobalArch(n) => if teamPe < n then Ok(teamPe) else Err(teamPe, teamPe)
    case StridedArch(n, start, end, stride) =>
      var p := start + teamPe * stride;
      if p >= start && p <= end && teamPe < n then Ok(p) else Err(p, teamPe)
    case BlockedArch(n, start, end) =>
      var p := start + teamPe;
      if p >= start && p <= end && teamPe < n then Ok(p) else Err(p, teamPe)
  }

  function TeamPeId(a: Arch, parentPe: nat): IdResult {
    match a
    case GlobalArch(n) => if parentPe < n then Ok(parentPe) else Err(parentPe, parentPe)
    case StridedArch(n, start, end, stride) =>
      if start <= parentPe <= end then
        if stride == 0 then Fault
        else if (parentPe - start) % stride == 0 then
          var t := (parentPe - start) / stride;
          if t < n then Ok(t) else Err(parentPe, t)
        else Err(parentPe, 0)
      else Err(parentPe, 0)
    case BlockedArch(n, start, end) =>
      if start <= parentPe <= end then
        var t := parentPe - start;
        if t < n then Ok(t) else Err(parentPe, t)
      else Err(parentPe, 0)
  }

  function WorldPe(t: Team, teamPe: nat): IdResult {
    var p := ParentPeId(t.arch, teamPe);
    if p.Ok? && t.Sub? then WorldPe(t.parent, p.id) else p
  }

  function TeamPe(t: Team, worldPe: nat): IdResult {
    match t
    case Root(a) => TeamPeId(a, worldPe)
    case Sub(parent, a) =>
      var p := TeamPe(parent, worldPe);
      if p.Ok? then TeamPeId(a, p.id) else p
  }

  // ---------------------------------------------------------------- inverses

  /** The two maps of one level undo each other, errors included. */
  ghost predicate Inverse(a: Arch) {
    forall t: nat, p: nat :: ParentPeId(a, t) == Ok(p) <==> TeamPeId(a, p) == Ok(t)
  }

  /** A strided team with a member and no stride. */
  predicate Stuck(a: Arch) {
    a.StridedArch? && a.stride == 0 && a.numPes > 0 && a.startPe <= a.endPe
  }

  lemma LevelInverse(a: Arch, t: nat, p: nat)
    requires !Stuck(a)
    ensures ParentPeId(a, t) == Ok(p) <==> TeamPeId(a, p) == Ok(t)
  {
    if a.StridedArch? && a.stride > 0 {
      if ParentPeId(a, t) == Ok(p) {
        DivModUnique(p - a.startPe, t, 0, a.stride);
      }
      if TeamPeId(a, p) == Ok(t) {
        assert p - a.startPe == a.stride * t;
      }
    }
  }

  /** One level's maps are inverses exactly when the team is not a strided one whose stride is
      zero although it has members. */
  lemma InverseIff(a: Arch)
    ensures Inverse(a) <==> !Stuck(a)
  {
    if Stuck(a) {
      assert ParentPeId(a, 0) == Ok(a.startPe) && TeamPeId(a, a.startPe) == Fault;
    } else {
      forall t: nat, p: nat ensures ParentPeId(a, t) == Ok(p) <==> TeamPeId(a, p) == Ok(t) {
        LevelInverse(a, t, p);
      }
    }
  }

  /** An error names the id that was asked for. */
  lemma ErrorsName(a: Arch, id: nat)
    ensures ParentPeId(a, id).Err? ==> ParentPeId(a, id).teamPe == id
    ensures TeamPeId(a, id).Err? ==> TeamPeId(a, id).parentPe == id
  {
  }

  predicate NoneStuck(t: Team) {
    !Stuck(t.arch) && (t.Sub? ==> NoneStuck(t.parent))
  }

  /** Through any nesting: a team id names a world id exactly when that world id names it. */
  lemma {:induction false} NestedInverse(t: Team, teamPe: nat, worldPe: nat)
    requires NoneStuck(t)
    ensures WorldPe(t, teamPe) == Ok(worldPe) <==> TeamPe(t, worldPe) == Ok(teamPe)
  {
    match t
    case Root(a) =>
      LevelInverse(a, teamPe, worldPe);
    case Sub(parent, a) =>
      var p, q := ParentPeId(a, teamPe), TeamPe(parent, worldPe);
      if p.Ok? {
        LevelInverse(a, teamPe, p.id);
        NestedInverse(parent, p.id, worldPe);
      }
      if q.Ok? {
        LevelInverse(a, teamPe, q.id);
        NestedInverse(parent, q.id, worldPe);
      }
  }

  // ---------------------------------------------------------------- construction

  /** Strided teams walk to their last member. */
  method NewStrided(startPe: nat, stride: nat, numTeamPes: nat) returns (a: Arch)
    ensures a.StridedArch? && Made(a) && a.startPe == startPe && a.stride == stride && a.numPes == numTeamPes
    ensures numTeamPes > 0 && stride > 0 ==> ParentPeId(a, numTeamPes - 1) == Ok(a.endPe)
    ensures numTeamPes > 0 && stride > 0 ==> TeamPeId(a, a.endPe) == Ok(numTeamPes - 1)
  {
    var endPe := startPe;
    for i := 1 to if numTeamPes > 1 then numTeamPes else 1
      invariant endPe == startPe + (i - 1) * stride
    {
      endPe := endPe + stride;
    }
    a := StridedArch(numTeamPes, startPe, endPe, stride);
    if numTeamPes > 0 && stride > 0 { LevelInverse(a, numTeamPes - 1, endPe); }
  }

  /** No result where the end of an empty block at id 0 would lie below 0. */
  function NewBlocked(startPe: nat, numTeamPes: nat): (r: Option<Arch>)
    ensures r.Some? <==> startPe + numTeamPes > 0
    ensures r.Some? ==> Made(r.value)
    ensures r.Some? ==> forall t: nat, p: nat ::
              ParentPeId(r.value, t) == Ok(p) <==> t < numTeamPes && p == startPe + t
  {
    if startPe + numTeamPes == 0 then None
    else Some(BlockedArch(numTeamPes, startPe, startPe + numTeamPes - 1))
  }

  /** The shapes the constructors give. */
  predicate Made(a: Arch) {
    match a
    case GlobalArch(n) => true
    case StridedArch(n, start, end, stride) => end == start + (if n == 0 then 0 else n - 1) * stride
    case BlockedArch(n, start, end) => start + n == end + 1
  }

  function StartPe(a: Arch): nat {
    if a.GlobalArch? then 0 else a.startPe
  }

  function EndPe(a: Arch): nat
    requires a.GlobalArch? ==> a.numPes > 0
  {
    if a.GlobalArch? then a.numPes - 1 else a.endPe
  }

  /** The subteam constructor with its assertions: the team is not empty, not larger than its
      parent, and its ends lie between those of the parent's own arch. */
  function NewTeam(parent: Team, a: Arch): (r: Option<Team>)
    ensures r.Some? ==> a.numPes > 0
    ensures r.Some? ==> r.value == Sub(parent, a)
    ensures r.Some? && parent == Root(GlobalArch(parent.arch.numPes)) ==> EndPe(a) < parent.arch.numPes
  {
    if !(0 < a.numPes <= parent.arch.numPes) then None
    else
      var first, last := StartPe(parent.arch), EndPe(parent.arch);
      if first <= StartPe(a) <= last && first <= EndPe(a) <= last then Some(Sub(parent, a)) else None
  }

  // ---------------------------------------------------------------- members

  /** Every level was made by a constructor, strides are positive, and each team's last member
      is a member of its parent. */
  predicate Fits(t: Team) {
    && Made(t.arch) && (t.arch.StridedArch? ==> t.arch.stride > 0)
    && (t.Sub? ==> Fits(t.parent) && (t.arch.numPes > 0 ==> EndPe(t.arch) < t.parent.arch.numPes))
  }

  ghost predicate AllResolve(t: Team) {
    forall i :: 0 <= i < t.arch.numPes ==> WorldPe(t, i).Ok?
  }

  lemma StrideIncreases(i: nat, j: nat, stride: nat)
    requires i < j && stride > 0
    ensures i * stride < j * stride
  {
    assert j * stride == i * stride + (j - i) * stride;
    MulMonotone(1, j - i, stride, stride);
  }

  /** On one level, members go to increasing parent ids, the last to the end. */
  lemma LevelIncreases(a: Arch, i: nat, j: nat)
    requires Made(a) && (a.StridedArch? ==> a.stride > 0) && i < j < a.numPes
    ensures ParentPeId(a, i).Ok? && ParentPeId(a, j).Ok?
    ensures ParentPeId(a, i).id < ParentPeId(a, j).id <= EndPe(a)
  {
    LevelResolves(a, i);
    LevelResolves(a, j);
    if a.StridedArch? {
      StrideIncreases(i, j, a.stride);
    }
  }

  lemma LevelResolves(a: Arch, i: nat)
    requires Made(a) && i < a.numPes
    ensures ParentPeId(a, i).Ok? && ParentPeId(a, i).id <= EndPe(a)
    ensures i == 0 ==> ParentPeId(a, i).id == StartPe(a)
    ensures i == a.numPes - 1 ==> ParentPeId(a, i).id == EndPe(a)
  {
    if a.StridedArch? {
      MulMonotone(i, a.numPes - 1, a.stride, a.stride);
    }
  }

  /** Consecutive members are a stride apart, or next to each other. */
  lemma LevelSpacing(a: Arch, i: nat)
    requires Made(a) && i + 1 < a.numPes
    ensures ParentPeId(a, i).Ok? && ParentPeId(a, i + 1).Ok?
    ensures ParentPeId(a, i + 1).id - ParentPeId(a, i).id == if a.StridedArch? then a.stride else 1
  {
    LevelResolves(a, i);
    LevelResolves(a, i + 1);
    if a.StridedArch? {
      assert (i + 1) * a.stride == i * a.stride + a.stride;
    }
  }

  lemma {:induction false} MembersResolve(t: Team, i: nat)
    requires Fits(t) && i < t.arch.numPes
    ensures WorldPe(t, i).Ok?
    decreases t
  {
    LevelResolves(t.arch, i);
    if t.Sub? {
      MembersResolve(t.parent, ParentPeId(t.arch, i).id);
    }
  }

  lemma {:induction false} MembersIncrease(t: Team, i: nat, j: nat)
    requires Fits(t) && i < j < t.arch.numPes
    ensures WorldPe(t, i).Ok? && WorldPe(t, j).Ok? && WorldPe(t, i).id < WorldPe(t, j).id
    decreases t
  {
    LevelIncreases(t.arch, i, j);
    if t.Sub? {
      MembersIncrease(t.parent, ParentPeId(t.arch, i).id, ParentPeId(t.arch, j).id);
    }
  }

  lemma {:induction false} OnlyMembersResolve(t: Team, i: nat)
    requires WorldPe(t, i).Ok?
    ensures i < t.arch.numPes
  {
  }

  /** The members of a subteam of a fitting team all resolve exactly when its last member is a
      member of its parent. */
  lemma ResolveIff(parent: Team, a: Arch)
    requires Fits(parent) && Made(a) && a.numPes > 0 && (a.StridedArch? ==> a.stride > 0)
    ensures AllResolve(Sub(parent, a)) <==> EndPe(a) < parent.arch.numPes
  {
    var t := Sub(parent, a);
    LevelResolves(a, a.numPes - 1);
    if AllResolve(t) {
      assert WorldPe(t, a.numPes - 1).Ok?;
      OnlyMembersResolve(parent, EndPe(a));
    }
    if EndPe(a) < parent.arch.numPes {
      forall i | 0 <= i < a.numPes ensures WorldPe(t, i).Ok? {
        MembersResolve(t, i);
      }
    }
  }

  /** A subteam of the world that its constructor accepts always fits. */
  lemma RootSubteamFits(n: nat, a: Arch)
    requires Made(a) && (a.StridedArch? ==> a.stride > 0)
    requires NewTeam(Root(GlobalArch(n)), a).Some?
    ensures Fits(NewTeam(Root(GlobalArch(n)), a).value)
  {
  }

  /** Of the non-empty teams the constructor accepts, as subteams of the world, exactly those
      whose members all resolve. */
  lemma RootAcceptsIff(n: nat, a: Arch)
    requires n > 0 && Made(a) && a.numPes > 0 && (a.StridedArch? ==> a.stride > 0)
    ensures NewTeam(Root(GlobalArch(n)), a).Some? <==> AllResolve(Sub(Root(GlobalArch(n)), a))
  {
    ResolveIff(Root(GlobalArch(n)), a);
    LevelResolves(a, 0);
    if a.StridedArch? {
      MulMonotone(a.numPes - 1, a.numPes - 1, 1, a.stride);
    }
  }

  /** Under any parent: a team is accepted exactly if it has members, not more than its parent,
      and all their ids lie between the ends of the parent's own arch. */
  lemma AcceptsIff(parent: Team, a: Arch)
    requires Made(a) && (a.StridedArch? ==> a.stride > 0)
    ensures NewTeam(parent, a).Some? <==>
            && 0 < a.numPes <= parent.arch.numPes
            && forall t :: 0 <= t < a.numPes ==>
                 ParentPeId(a, t).Ok? && StartPe(parent.arch) <= ParentPeId(a, t).id <= EndPe(parent.arch)
  {
    if 0 < a.numPes {
      LevelResolves(a, 0);
      LevelResolves(a, a.numPes - 1);
      forall t | 0 <= t < a.numPes ensures ParentPeId(a, t).Ok? && StartPe(a) <= ParentPeId(a, t).id <= EndPe(a) {
        LevelResolves(a, t);
      }
    }
  }

  /** Below that the constructor compares ids of different teams: for the upper half of a world
      of `2 * k`, it accepts a subteam whose members do not resolve and refuses the subteam of
      all members, which fits. */
  lemma NestedCheckMisses(k: nat)
    requires k > 0
    ensures var upper := Sub(Root(GlobalArch(2 * k)), BlockedArch(k, k, 2 * k - 1));
            && Fits(upper)
            && NewTeam(upper, BlockedArch(k, k, 2 * k - 1)).Some?
            && WorldPe(Sub(upper, BlockedArch(k, k, 2 * k - 1)), 0).Err?
            && NewTeam(upper, BlockedArch(k, 0, k - 1)).None?
            && Fits(Sub(upper, BlockedArch(k, 0, k - 1)))
  {
    var upper := Sub(Root(GlobalArch(2 * k)), BlockedArch(k, k, 2 * k - 1));
    assert ParentPeId(BlockedArch(k, k, 2 * k - 1), 0) == Ok(k);
    assert WorldPe(upper, k).Err?;
  }

  // ---------------------------------------------------------------- iteration

  class TeamIter {
    const team: Team
    var curPe: nat
    const single: bool

    constructor (team: Team, curPe: nat, single: bool)
      ensures this.team == team && this.curPe == curPe && this.single == single
    {
      this.team, this.curPe, this.single := team, curPe, single;
    }

    /** Yields the world id of the current member, if it has one, and moves on: to the next
        member, or for a single-member iterator to the end. */
    method Next() returns (r: Option<nat>)
      modifies this
      ensures r.Some? <==> old(curPe) < team.arch.numPes && WorldPe(team, old(curPe)).Ok?
      ensures r.Some? ==> WorldPe(team, old(curPe)) == Ok(r.value)
      ensures curPe == if old(curPe) >= team.arch.numPes then old(curPe)
                       else if single then team.arch.numPes else old(curPe) + 1
    {
      if curPe >= team.arch.numPes {
        return None;
      }
      var pe := WorldPe(team, curPe);
      r := if pe.Ok? then Some(pe.id) else None;
      curPe := if single then team.arch.numPes else curPe + 1;
    }
  }

  /** Draining a team's iterator. For a team that fits it gives each member's world id, in
      increasing order and nothing else; in general it stops at the first member without one. */
  method TeamIds(team: Team) returns (ids: seq<nat>)
    ensures |ids| <= team.arch.numPes
    ensures forall i :: 0 <= i < |ids| ==> WorldPe(team, i) == Ok(ids[i])
    ensures |ids| == team.arch.numPes <==> AllResolve(team)
    ensures Fits(team) ==> |ids| == team.arch.numPes
    ensures Fits(team) ==> forall i, j :: 0 <= i < j < |ids| ==> ids[i] < ids[j]
    ensures Fits(team) ==> forall w: nat :: w in ids <==> TeamPe(team, w).Ok?
  {
    ids := [];
    var iter := new TeamIter(team, 0, false);
    var more := true;
    while more
      invariant iter.team == team && !iter.single
      invariant more ==> iter.curPe == |ids|
      invariant |ids| <= team.arch.numPes
      invariant forall i :: 0 <= i < |ids| ==> WorldPe(team, i) == Ok(ids[i])
      invariant !more ==> |ids| == team.arch.numPes || !WorldPe(team, |ids|).Ok?
      decreases more, team.arch.numPes - |ids|
    {
      var pe := iter.Next();
      if pe.Some? {
        ids := ids + [pe.value];
      } else {
        more := false;
      }
    }
    if Fits(team) { MembersExact(team, ids); }
  }

  lemma {:induction false} FitsNoneStuck(t: Team)
    requires Fits(t)
    ensures NoneStuck(t)
  {
    if t.Sub? { FitsNoneStuck(t.parent); }
  }

  lemma MembersExact(t: Team, ids: seq<nat>)
    requires Fits(t) && |ids| <= t.arch.numPes
    requires forall i :: 0 <= i < |ids| ==> WorldPe(t, i) == Ok(ids[i])
    requires |ids| == t.arch.numPes || !WorldPe(t, |ids|).Ok?
    ensures |ids| == t.arch.numPes
    ensures forall i, j :: 0 <= i < j < |ids| ==> ids[i] < ids[j]
    ensures forall w: nat :: w in ids <==> TeamPe(t, w).Ok?
  {
    hide WorldPe, TeamPe;
    if |ids| < t.arch.numPes { MembersResolve(t, |ids|); }
    FitsNoneStuck(t);
    forall i, j | 0 <= i < j < |ids| ensures ids[i] < ids[j] {
      MembersIncrease(t, i, j);
    }
    forall w: nat ensures w in ids <==> TeamPe(t, w).Ok? {
      if w in ids {
        var i :| 0 <= i < |ids| && ids[i] == w;
        NestedInverse(t, i, w);
      }
      if TeamPe(t, w).Ok? {
        var i := TeamPe(t, w).id;
        NestedInverse(t, i, w);
        OnlyMembersResolve(t, i);
        assert ids[i] == w;
      }
    }
  }
}
