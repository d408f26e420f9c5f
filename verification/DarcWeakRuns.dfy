/** Runs of the weak/strong race read off their steps: which upgrades succeed, how many handles
    there are, and what the clean-up may rely on when it frees. */
module DarcWeakRuns {
  import opened Options
  import opened Sums
  import opened DarcWeak

  // ---------------------------------------------------------------- counting from the steps

  /** The operations begun in a run, in order; the one at place `i` is advanced by `Go(i)`. */
  function Begun(steps: seq<Step>): seq<Step> {
    if steps == [] then []
    else
      var t := steps[|steps| - 1];
      Begun(steps[..|steps| - 1]) + if t.StartUpgrade? || t.StartDrop? then [t] else []
  }

  function Advances(i: nat): Step -> nat {
    (t: Step) => if t == Go(i) then 1 else 0
  }

  function Clones(t: Step): nat {
    if t.Clone? then 1 else 0
  }

  function Drops(t: Step): nat {
    if t.StartDrop? then 1 else 0
  }

  function NewWeaks(t: Step): nat {
    if t.Downgrade? || t.WeakClone? then 1 else 0
  }

  function WeakDrops(t: Step): nat {
    if t.WeakDrop? then 1 else 0
  }

  predicate Invalidated(steps: seq<Step>) {
    TaskInvalidate in steps
  }

  /** After `before`, step `t` is an upgrade's look at the valid flag: its second advance. */
  predicate Decides(before: seq<Step>, t: Step) {
    && t.Go? && t.i < |Begun(before)| && Begun(before)[t.i].StartUpgrade?
    && Tally(before, Advances(t.i)) == 1
  }

  /** Upgrades that looked at the flag before it was cleared. */
  function Upgrades(steps: seq<Step>): nat {
    if steps == [] then 0
    else
      var before, t := steps[..|steps| - 1], steps[|steps| - 1];
      Upgrades(before) + if Decides(before, t) && !Invalidated(before) then 1 else 0
  }

  /** The handles there should be: the first one, clones and successful upgrades, less the
      drops begun. */
  function HandlesOf(steps: seq<Step>): int {
    1 + Tally(steps, Clones) + Upgrades(steps) - Tally(steps, Drops)
  }

  /** How far an operation is after a number of advances. */
  predicate OpAfter(start: Step, advances: nat, op: Op) {
    match start
    case StartUpgrade(w) =>
      if advances == 0 then op == UpgradeAdd(w)
      else if advances == 1 then op == UpgradeTest(w)
      else op == UpgradeUndo(w) || op.Done?
    case _ => op.DropSub? || op.DropTest? || op.DropCas? || op.Done?
  }

  ghost predicate OpsInv(s: State, steps: seq<Step>) {
    && |s.ops| == |Begun(steps)|
    && (forall i :: 0 <= i < |s.ops| ==> OpAfter(Begun(steps)[i], Tally(steps, Advances(i)), s.ops[i]))
    && (forall i :: i >= |s.ops| ==> Tally(steps, Advances(i)) == 0)
    && (s.valid <==> !Invalidated(steps))
  }

  lemma BegunNext(steps: seq<Step>, t: Step)
    ensures Begun(steps + [t]) == Begun(steps) + if t.StartUpgrade? || t.StartDrop? then [t] else []
    ensures Invalidated(steps + [t]) <==> Invalidated(steps) || t == TaskInvalidate
  {
    assert (steps + [t])[..|steps|] == steps;
  }

  lemma OpsStep(s: State, steps: seq<Step>, t: Step)
    requires OpsInv(s, steps) && Enabled(s, t)
    ensures OpsInv(Apply(s, t), steps + [t])
  {
    hide Tally, Begun, Invalidated, Release;
    BegunNext(steps, t);
    forall i: nat ensures Tally(steps + [t], Advances(i)) == Tally(steps, Advances(i)) + if t == Go(i) then 1 else 0 {
      TallyAppend(steps, Advances(i), t);
    }
    var s' := Apply(s, t);
    forall i: nat | i < |s'.ops|
      ensures OpAfter(Begun(steps + [t])[i], Tally(steps + [t], Advances(i)), s'.ops[i])
    {
      assert i < |s.ops| ==> OpAfter(Begun(steps)[i], Tally(steps, Advances(i)), s.ops[i]);
      assert i >= |s.ops| ==> Tally(steps, Advances(i)) == 0;
    }
  }

  lemma {:induction false} RunOps(mode: Mode, steps: seq<Step>)
    requires Run(mode, steps).Some?
    ensures OpsInv(Run(mode, steps).value, steps)
    decreases |steps|
  {
    if steps != [] {
      var before, t := steps[..|steps| - 1], steps[|steps| - 1];
      RunOps(mode, before);
      hide Apply, OpsInv, Enabled;
      OpsStep(Run(mode, before).value, before, t);
      assert before + [t] == steps;
    }
  }

  /** What a step does to the number of handles: an advance adds one exactly if it is an
      upgrade's look at a flag still set. */
  lemma StepHandles(s: State, steps: seq<Step>, t: Step)
    requires OpsInv(s, steps) && Enabled(s, t)
    ensures Apply(s, t).handles ==
            s.handles + Clones(t) - Drops(t) + if Decides(steps, t) && !Invalidated(steps) then 1 else 0
  {
    hide Tally, Begun, Invalidated, Release;
    if t.Go? {
      assert OpAfter(Begun(steps)[t.i], Tally(steps, Advances(t.i)), s.ops[t.i]);
    }
  }

  /** In every run the handles are those that the steps say. */
  lemma {:induction false} HandlesCounted(mode: Mode, steps: seq<Step>)
    requires Run(mode, steps).Some?
    ensures Run(mode, steps).value.handles == HandlesOf(steps)
    decreases |steps|
  {
    if steps != [] {
      var before, t := steps[..|steps| - 1], steps[|steps| - 1];
      HandlesCounted(mode, before);
      RunOps(mode, before);
      hide Apply, OpsInv, Enabled, Decides;
      StepHandles(Run(mode, before).value, before, t);
    }
  }

  /** The upgrade `i` yields a handle and is done. */
  predicate Succeeded(s: State, s': State, i: nat) {
    s'.handles == s.handles + 1 && s'.local == s.local && i < |s'.ops| && s'.ops[i].Done?
  }

  /** It yields none and is about to take its count back. */
  predicate Failed(s: State, s': State, i: nat) {
    s'.handles == s.handles && s'.local == s.local && i < |s'.ops| && s'.ops[i].UpgradeUndo?
  }

  lemma Decided(s: State, steps: seq<Step>, i: nat)
    requires OpsInv(s, steps) && Enabled(s, Go(i)) && Decides(steps, Go(i))
    ensures if Invalidated(steps) then Failed(s, Apply(s, Go(i)), i) else Succeeded(s, Apply(s, Go(i)), i)
  {
    hide Begun, Invalidated, Release, Tally;
    assert OpAfter(Begun(steps)[i], Tally(steps, Advances(i)), s.ops[i]);
  }

  /** An upgrade that looks at the flag before the clean-up clears it yields a handle; one that
      looks later yields none and goes on to take its count back. */
  lemma UpgradeSucceedsIff(mode: Mode, steps: seq<Step>, i: nat)
    requires Run(mode, steps).Some? && Enabled(Run(mode, steps).value, Go(i)) && Decides(steps, Go(i))
    ensures var s, s' := Run(mode, steps).value, Apply(Run(mode, steps).value, Go(i));
            if Invalidated(steps) then Failed(s, s', i) else Succeeded(s, s', i)
  {
    hide OpsInv, Decides, Invalidated, Run, Apply, Enabled;
    RunOps(mode, steps);
    Decided(Run(mode, steps).value, steps, i);
  }

  lemma StepWeaks(s: State, t: Step)
    requires Enabled(s, t)
    ensures Apply(s, t).weakCnt == s.weakCnt + NewWeaks(t) - WeakDrops(t)
  {
    hide Release;
  }

  /** In every run the weak count is the weak handles made less those dropped. */
  lemma {:induction false} WeaksCounted(mode: Mode, steps: seq<Step>)
    requires Run(mode, steps).Some?
    ensures Run(mode, steps).value.weakCnt == Tally(steps, NewWeaks) - Tally(steps, WeakDrops)
    decreases |steps|
  {
    if steps != [] {
      var before, t := steps[..|steps| - 1], steps[|steps| - 1];
      WeaksCounted(mode, before);
      hide Apply, Enabled;
      StepWeaks(Run(mode, before).value, t);
    }
  }

  // ---------------------------------------------------------------- what the clean-up does

  lemma NoneCountedIff(s: State)
    requires CountInv(s)
    ensures s.local == 0 <==> s.handles == 0 && forall i :: 0 <= i < |s.ops| ==> Counts(s.ops[i]) == 0
  {
    hide Tally;
    if forall i :: 0 <= i < |s.ops| ==> Counts(s.ops[i]) == 0 { TallyZero(s.ops, Counts); }
    forall i | 0 <= i < |s.ops| ensures Counts(s.ops[i]) <= Tally(s.ops, Counts) { TallyAtLeast(s.ops, Counts, i); }
  }

  lemma NoneAliveIff(s: State)
    requires CountInv(s)
    ensures s.weakCnt == 0 <==> forall w :: 0 <= w < |s.weaks| ==> !s.weaks[w].alive
  {
    hide Tally;
    if forall w :: 0 <= w < |s.weaks| ==> !s.weaks[w].alive { TallyZero(s.weaks, Lives); }
    forall w | 0 <= w < |s.weaks| ensures Lives(s.weaks[w]) <= Tally(s.weaks, Lives) { TallyAtLeast(s.weaks, Lives, w); }
  }

  /** Each reading of the clean-up lets it go on exactly when there is nothing left to wait
      for: nothing serialized and unacknowledged, no handle and no operation that counts as
      one, no weak handle. */
  lemma CleanUpGoesOnIff(mode: Mode, steps: seq<Step>)
    requires mode != Dropped && Run(mode, steps).Some?
    ensures var s := Run(mode, steps).value;
            && (s.task.Polling? ==> (Apply(s, TaskReadDist).task.SawNoDist? <==> s.dist == 0))
            && (s.task.SawNoDist? ==>
                  (Apply(s, TaskReadLocal).task.ItemFreed? <==>
                   s.handles == 0 && forall i :: 0 <= i < |s.ops| ==> Counts(s.ops[i]) == 0))
            && (s.task.ItemFreed? ==>
                  (Apply(s, TaskReadWeak).task.MemoryFreed? <==>
                   forall w :: 0 <= w < |s.weaks| ==> !s.weaks[w].alive))
  {
    hide Run, CountInv, BorrowInv, LaunchInv, FreedInv;
    RunInv(mode, steps);
    NoneCountedIff(Run(mode, steps).value);
    NoneAliveIff(Run(mode, steps).value);
  }

  // ---------------------------------------------------------------- between its two loads

  /** Handles serialized since the clean-up last read the distributed count. */
  function SentSince(steps: seq<Step>): nat {
    if steps == [] then 0
    else
      var t := steps[|steps| - 1];
      if t.TaskReadDist? then 0 else SentSince(steps[..|steps| - 1]) + if t.Send? then t.n else 0
  }

  function AcknowledgedSince(steps: seq<Step>): nat {
    if steps == [] then 0
    else
      var t := steps[|steps| - 1];
      if t.TaskReadDist? then 0 else AcknowledgedSince(steps[..|steps| - 1]) + if t.Acknowledge? then t.n else 0
  }

  /** The handles there were at that reading. */
  function HandlesThen(steps: seq<Step>): int {
    if steps == [] then 1
    else
      var t := steps[|steps| - 1];
      if t.TaskReadDist? then HandlesOf(steps[..|steps| - 1]) else HandlesThen(steps[..|steps| - 1])
  }

  ghost predicate SinceInv(s: State, steps: seq<Step>) {
    s.task.SawNoDist? ==>
      && s.dist == SentSince(steps) - AcknowledgedSince(steps)
      && (HandlesThen(steps) == 0 ==> s.handles == 0 && SentSince(steps) == 0)
  }

  lemma StepSince(s: State, steps: seq<Step>, t: Step)
    requires SinceInv(s, steps) && OpsInv(s, steps) && Enabled(s, t)
    requires (s.valid <==> s.task.NoTask? || s.task.Waiting?) && s.handles == HandlesOf(steps)
    requires t.Go? && s.ops[t.i].DropCas? && s.task.NoTask? ==> s.valid
    ensures SinceInv(Apply(s, t), steps + [t])
  {
    hide HandlesOf, OpsInv, Release, ChainFrom;
    assert (steps + [t])[..|steps|] == steps;
  }

  lemma {:induction false} RunSince(mode: Mode, steps: seq<Step>)
    requires mode != Dropped && Run(mode, steps).Some?
    ensures SinceInv(Run(mode, steps).value, steps)
    decreases |steps|
  {
    if steps != [] {
      var before, t := steps[..|steps| - 1], steps[|steps| - 1];
      RunSince(mode, before);
      RunInv(mode, before);
      RunOps(mode, before);
      HandlesCounted(mode, before);
      hide HandlesOf, CountInv, BorrowInv, FreedInv, OpsInv, SinceInv, Apply, Enabled;
      StepSince(Run(mode, before).value, before, t);
      assert before + [t] == steps;
    }
  }

  /** The clean-up loads the distributed count first and the local count second. The item is
      freed with a distributed count of zero exactly when what was serialized between the two
      loads has been acknowledged; so it is if no handle existed at the first load. */
  lemma ItemFreedDist(mode: Mode, steps: seq<Step>)
    requires mode != Dropped && Run(mode, steps).Some? && Run(mode, steps).value.task.SawNoDist?
    ensures var s := Run(mode, steps).value;
            && (Apply(s, TaskReadLocal).dist == 0 <==> SentSince(steps) == AcknowledgedSince(steps))
            && (HandlesThen(steps) == 0 ==> Apply(s, TaskReadLocal).dist == 0)
  {
    hide Run, SentSince, AcknowledgedSince, HandlesThen;
    RunSince(mode, steps);
  }

  lemma Next(mode: Mode, steps: seq<Step>, s: State, t: Step, s': State)
    requires Run(mode, steps) == Some(s) && Enabled(s, t) && s' == Apply(s, t)
    ensures Run(mode, steps + [t]) == Some(s')
  {
    assert (steps + [t])[..|steps|] == steps;
  }

  lemma UpgradeBegun() returns (steps: seq<Step>)
    ensures Run(Darc, steps) == Some(State(1, 1, 0, true, Darc, 1, [Weak(true, 1)], [UpgradeAdd(0)], NoTask, 0))
  {
    hide Run;
    InitIsRun(Darc);
    var s0 := Init(Darc);
    var s1 := State(1, 1, 0, true, Darc, 1, [Weak(true, 0)], [], NoTask, 0);
    assert Apply(s0, Downgrade) == s1;
    Next(Darc, [], s0, Downgrade, s1);
    var s2 := State(1, 1, 0, true, Darc, 1, [Weak(true, 1)], [UpgradeAdd(0)], NoTask, 0);
    assert Apply(s1, StartUpgrade(0)) == s2;
    Next(Darc, [] + [Downgrade], s1, StartUpgrade(0), s2);
    steps := [] + [Downgrade] + [StartUpgrade(0)];
  }

  /** The last drop sees no handle while an upgrade is about to begin. */
  lemma DropDuringUpgrade() returns (steps: seq<Step>)
    ensures Run(Darc, steps)
         == Some(State(0, 1, 0, true, Darc, 0, [Weak(true, 1)], [UpgradeAdd(0), DropCas(0)], NoTask, 0))
  {
    hide Run;
    steps := UpgradeBegun();
    var s2 := State(1, 1, 0, true, Darc, 1, [Weak(true, 1)], [UpgradeAdd(0)], NoTask, 0);
    var s3 := s2.(handles := 0, ops := [UpgradeAdd(0), DropSub]);
    Next(Darc, steps, s2, StartDrop, s3);
    steps := steps + [StartDrop];
    var s4 := s3.(local := 0, ops := [UpgradeAdd(0), DropTest]);
    Next(Darc, steps, s3, Go(1), s4);
    steps := steps + [Go(1)];
    var s5 := s4.(ops := [UpgradeAdd(0), DropCas(0)]);
    Next(Darc, steps, s4, Go(1), s5);
    steps := steps + [Go(1)];
  }

  /** So the upgrade leaves a handle after the clean-up is launched. */
  lemma UpgradeDuringLaunch() returns (steps: seq<Step>)
    ensures Run(Darc, steps) == Some(State(1, 1, 0, true, Dropped, 1, [Weak(true, 0)], [Done, Done], Waiting, 1))
  {
    hide Run;
    steps := DropDuringUpgrade();
    var s5 := State(0, 1, 0, true, Darc, 0, [Weak(true, 1)], [UpgradeAdd(0), DropCas(0)], NoTask, 0);
    var s6 := s5.(local := 1, ops := [UpgradeTest(0), DropCas(0)]);
    Next(Darc, steps, s5, Go(0), s6);
    steps := steps + [Go(0)];
    var s7 := s6.(handles := 1, weaks := [Weak(true, 0)], ops := [Done, DropCas(0)]);
    Next(Darc, steps, s6, Go(0), s7);
    steps := steps + [Go(0)];
    var s8 := s7.(mode := Dropped, task := Waiting, launches := 1, ops := [Done, Done]);
    Next(Darc, steps, s7, Go(1), s8);
    steps := steps + [Go(1)];
  }

  lemma InitIsRun(mode: Mode)
    ensures Run(mode, []) == Some(Init(mode))
  {
  }

  /** That handle serialized and dropped between the two loads: the item is freed while the
      serialized handle is still on its way. */
  lemma LateSendLeavesDist() returns (steps: seq<Step>)
    ensures Run(Darc, steps).Some?
    ensures Run(Darc, steps).value.task.ItemFreed? && Run(Darc, steps).value.dist == 1
  {
    hide Run;
    steps := UpgradeDuringLaunch();
    var s0 := State(1, 1, 0, true, Dropped, 1, [Weak(true, 0)], [Done, Done], Waiting, 1);
    var s1 := s0.(valid := false, task := Polling);
    Next(Darc, steps, s0, TaskInvalidate, s1);
    steps := steps + [TaskInvalidate];
    var s2 := s1.(task := SawNoDist);
    Next(Darc, steps, s1, TaskReadDist, s2);
    steps := steps + [TaskReadDist];
    var s3 := s2.(dist := 1);
    Next(Darc, steps, s2, Send(1), s3);
    steps := steps + [Send(1)];
    var s4 := s3.(handles := 0, ops := [Done, Done, DropSub]);
    Next(Darc, steps, s3, StartDrop, s4);
    steps := steps + [StartDrop];
    var s5 := s4.(local := 0, ops := [Done, Done, DropTest]);
    Next(Darc, steps, s4, Go(2), s5);
    steps := steps + [Go(2)];
    var s6 := s5.(task := ItemFreed);
    Next(Darc, steps, s5, TaskReadLocal, s6);
    steps := steps + [TaskReadLocal];
  }
}
