/** Weak against strong handles of a Darc on one PE, at the granularity of single atomic
    operations: upgrades, drops and the clean-up task race with each other in any order. */
module DarcWeak {
  import opened Options
  import opened Sums

  datatype Mode =
    | Dropped | Darc | LocalRw | GlobalRw | UnsafeArray | ReadOnlyArray
    | GenericAtomicArray | NativeAtomicArray | LocalLockArray | GlobalLockArray

  /** The modes a finished drop tries to exchange for `Dropped`, in order. */
  const CHAIN: seq<Mode> := [Darc, LocalRw, GlobalRw, LocalRw, UnsafeArray, ReadOnlyArray,
                             LocalLockArray, GlobalLockArray, GenericAtomicArray, NativeAtomicArray]

  /** An operation under way. `w` is the weak handle an upgrade goes through. */
  datatype Op =
    | UpgradeAdd(w: nat)      // about to add 1 to the local count
    | UpgradeTest(w: nat)     // about to load the valid flag
    | UpgradeUndo(w: nat)     // saw an invalid Darc, about to subtract 1 again
    | DropSub                 // gives up a handle, about to subtract 1
    | DropTest                // about to look whether the count is 0
    | DropCas(i: nat)         // saw 0, about to try mode CHAIN[i]
    | Done

  /** The clean-up task: not launched, waiting for the other PEs, polling with the Darc
      invalidated, having just read a distributed count of 0, item freed, memory freed. */
  datatype Task = NoTask | Waiting | Polling | SawNoDist | ItemFreed | MemoryFreed

  datatype Weak = Weak(alive: bool, borrows: nat)

  /** `handles` are the strong handles in somebody's hands, `dist` the distributed count. */
  datatype State = State(
    local: int,
    weakCnt: int,
    dist: nat,
    valid: bool,
    mode: Mode,
    handles: nat,
    weaks: seq<Weak>,
    ops: seq<Op>,
    task: Task,
    launches: nat)

  datatype Step =
    | Clone
    | Downgrade
    | WeakClone(w: nat)
    | WeakDrop(w: nat)
    | StartUpgrade(w: nat)
    | StartDrop
    | Send(n: nat)            // a handle is serialized for `n` PEs
    | Acknowledge(n: nat)     // `n` of the serialized handles are acknowledged
    | Go(i: nat)
    | TaskInvalidate
    | TaskReadDist
    | TaskReadLocal
    | TaskReadWeak

  function Init(mode: Mode): State {
    State(1, 0, 0, true, mode, 1, [], [], NoTask, 0)
  }

  predicate Alive(s: State, w: nat) {
    w < |s.weaks| && s.weaks[w].alive
  }

  predicate Enabled(s: State, t: Step) {
    match t
    case Clone => s.handles >= 1
    case Downgrade => s.handles >= 1
    case WeakClone(w) => Alive(s, w)
    case WeakDrop(w) => Alive(s, w) && s.weaks[w].borrows == 0
    case StartUpgrade(w) => Alive(s, w)
    case StartDrop => s.handles >= 1
    case Send(_) => s.handles >= 1
    case Acknowledge(n) => n <= s.dist
    case Go(i) => i < |s.ops| && !s.ops[i].Done?
    case TaskInvalidate => s.task.Waiting?
    case TaskReadDist => s.task.Polling?
    case TaskReadLocal => s.task.SawNoDist?
    case TaskReadWeak => s.task.ItemFreed?
  }

  /** The borrow of a weak handle ends with the operation that took it. */
  function Release(weaks: seq<Weak>, w: nat): seq<Weak> {
    if w < |weaks| && weaks[w].borrows >= 1 then
      weaks[w := weaks[w].(borrows := weaks[w].borrows - 1)]
    else weaks
  }

  function Apply(s: State, t: Step): State
    requires Enabled(s, t)
  {
    match t
    case Clone => s.(local := s.local + 1, handles := s.handles + 1)
    case Downgrade => s.(weakCnt := s.weakCnt + 1, weaks := s.weaks + [Weak(true, 0)])
    case WeakClone(w) => s.(weakCnt := s.weakCnt + 1, weaks := s.weaks + [Weak(true, 0)])
    case WeakDrop(w) => s.(weakCnt := s.weakCnt - 1, weaks := s.weaks[w := Weak(false, 0)])
    case StartUpgrade(w) =>
      s.(weaks := s.weaks[w := s.weaks[w].(borrows := s.weaks[w].borrows + 1)], ops := s.ops + [UpgradeAdd(w)])
    case StartDrop => s.(handles := s.handles - 1, ops := s.ops + [DropSub])
    case Send(n) => s.(dist := s.dist + n)
    case Acknowledge(n) => s.(dist := s.dist - n)
    case Go(i) => GoOn(s, i)
    case TaskInvalidate => s.(valid := false, task := Polling)
    case TaskReadDist => if s.dist == 0 then s.(task := SawNoDist) else s
    case TaskReadLocal => s.(task := if s.local == 0 then ItemFreed else Polling)
    case TaskReadWeak => if s.weakCnt == 0 then s.(task := MemoryFreed) else s
  }

  function GoOn(s: State, i: nat): State
    requires i < |s.ops| && !s.ops[i].Done?
  {
    match s.ops[i]
    case UpgradeAdd(w) => s.(local := s.local + 1, ops := s.ops[i := UpgradeTest(w)])
    case UpgradeTest(w) =>
      if s.valid then s.(handles := s.handles + 1, ops := s.ops[i := Done], weaks := Release(s.weaks, w))
      else s.(ops := s.ops[i := UpgradeUndo(w)])
    case UpgradeUndo(w) => s.(local := s.local - 1, ops := s.ops[i := Done], weaks := Release(s.weaks, w))
    case DropSub => s.(local := s.local - 1, ops := s.ops[i := DropTest])
    case DropTest => s.(ops := s.ops[i := if s.local == 0 then DropCas(0) else Done])
    case DropCas(k) =>
      if k < |CHAIN| && s.mode == CHAIN[k] then
        s.(mode := Dropped, task := if s.task.NoTask? then Waiting else s.task, launches := s.launches + 1,
           ops := s.ops[i := Done])
      else s.(ops := s.ops[i := if k + 1 < |CHAIN| then DropCas(k + 1) else Done])
  }

  function Run(mode: Mode, steps: seq<Step>): Option<State> {
    if steps == [] then Some(Init(mode))
    else
      var prefix := Run(mode, steps[..|steps| - 1]);
      var t := steps[|steps| - 1];
      if prefix.Some? && Enabled(prefix.value, t) then Some(Apply(prefix.value, t)) else None
  }

  // ---------------------------------------------------------------- counting

  /** Whether an operation is counted in the local count, besides the handles. */
  function Counts(op: Op): nat {
    if op.UpgradeTest? || op.UpgradeUndo? || op.DropSub? then 1 else 0
  }

  /** Whether an operation may still produce a handle or launch the clean-up. */
  function Promises(op: Op): nat {
    if op.UpgradeTest? || op.DropSub? || op.DropTest? || op.DropCas? then 1 else 0
  }

  predicate Through(op: Op, w: nat) {
    (op.UpgradeAdd? || op.UpgradeTest? || op.UpgradeUndo?) && op.w == w
  }

  function Borrows(w: nat): Op -> nat {
    (op: Op) => if Through(op, w) then 1 else 0
  }

  function Lives(w: Weak): nat {
    if w.alive then 1 else 0
  }

  // ---------------------------------------------------------------- the invariant

  /** The mode is still to be tried by a drop that has got to entry `i`. */
  predicate ChainFrom(mode: Mode, i: nat)
    decreases |CHAIN| - i
  {
    i < |CHAIN| && (CHAIN[i] == mode || ChainFrom(mode, i + 1))
  }

  ghost predicate CountInv(s: State) {
    && s.local == s.handles + Tally(s.ops, Counts)
    && s.weakCnt == Tally(s.weaks, Lives)
  }

  ghost predicate BorrowInv(s: State) {
    && (forall w :: 0 <= w < |s.weaks| ==> s.weaks[w].borrows == Tally(s.ops, Borrows(w)))
    && (forall w :: 0 <= w < |s.weaks| && !s.weaks[w].alive ==> s.weaks[w].borrows == 0)
    && (forall i, w: nat :: 0 <= i < |s.ops| && Through(s.ops[i], w) ==> w < |s.weaks|)
  }

  /** The clean-up is launched at most once, and not lost. */
  ghost predicate LaunchInv(s: State) {
    && s.launches <= 1
    && (s.launches == 1 <==> !s.task.NoTask?)
    && (s.launches == 1 <==> s.mode.Dropped?)
    && (s.valid <==> s.task.NoTask? || s.task.Waiting?)
    && (s.valid ==> forall i :: 0 <= i < |s.ops| ==> !s.ops[i].UpgradeUndo?)
    && (forall i :: 0 <= i < |s.ops| && s.ops[i].DropCas? ==>
          s.mode.Dropped? || ChainFrom(s.mode, s.ops[i].i))
    && (s.launches == 0 ==> s.handles + Tally(s.ops, Promises) >= 1)
  }

  ghost predicate FreedInv(s: State) {
    && (s.task.ItemFreed? || s.task.MemoryFreed? ==>
          s.handles == 0 && forall i :: 0 <= i < |s.ops| ==> !s.ops[i].DropSub?)
    && (s.task.MemoryFreed? ==> forall w :: 0 <= w < |s.weaks| ==> !s.weaks[w].alive)
  }

  ghost predicate Inv(s: State) {
    CountInv(s) && BorrowInv(s) && LaunchInv(s) && FreedInv(s)
  }

  lemma InitInv(mode: Mode)
    requires mode != Dropped
    ensures Inv(Init(mode))
  {
  }

  lemma {:induction false} ChainReaches(mode: Mode, i: nat, j: nat)
    requires i <= j < |CHAIN| && CHAIN[j] == mode
    ensures ChainFrom(mode, i)
    decreases j - i
  {
    if i < j { ChainReaches(mode, i + 1, j); }
  }

  lemma ChainHasAll(mode: Mode)
    requires mode != Dropped
    ensures ChainFrom(mode, 0)
  {
    var j := match mode
      case Dropped => 0
      case Darc => 0
      case LocalRw => 1
      case GlobalRw => 2
      case UnsafeArray => 4
      case ReadOnlyArray => 5
      case LocalLockArray => 6
      case GlobalLockArray => 7
      case GenericAtomicArray => 8
      case NativeAtomicArray => 9;
    ChainReaches(mode, 0, j);
  }

  lemma StepCount(s: State, t: Step)
    requires Inv(s) && Enabled(s, t)
    ensures CountInv(Apply(s, t))
  {
    hide Tally, BorrowInv, LaunchInv, FreedInv;
    match t
    case Downgrade => TallyAppend(s.weaks, Lives, Weak(true, 0));
    case WeakClone(_) => TallyAppend(s.weaks, Lives, Weak(true, 0));
    case WeakDrop(w) => TallyUpdate(s.weaks, Lives, w, Weak(false, 0));
    case StartUpgrade(w) =>
      TallyAppend(s.ops, Counts, UpgradeAdd(w));
      TallyUpdate(s.weaks, Lives, w, s.weaks[w].(borrows := s.weaks[w].borrows + 1));
    case StartDrop => TallyAppend(s.ops, Counts, DropSub);
    case Go(i) => GoCount(s, i);
    case _ =>
  }

  lemma GoCount(s: State, i: nat)
    requires CountInv(s) && Enabled(s, Go(i))
    ensures CountInv(GoOn(s, i))
  {
    hide Tally, Release;
    TallyUpdate(s.ops, Counts, i, GoOn(s, i).ops[i]);
    if s.ops[i].UpgradeTest? || s.ops[i].UpgradeUndo? { ReleaseLives(s.weaks, s.ops[i].w); }
  }

  lemma ReleaseLives(weaks: seq<Weak>, w: nat)
    ensures Tally(Release(weaks, w), Lives) == Tally(weaks, Lives)
  {
    if w < |weaks| && weaks[w].borrows >= 1 {
      TallyUpdate(weaks, Lives, w, weaks[w].(borrows := weaks[w].borrows - 1));
    }
  }

  lemma ReleaseBorrows(weaks: seq<Weak>, w: nat)
    requires w < |weaks| && weaks[w].borrows >= 1
    ensures var weaks' := Release(weaks, w);
            && |weaks'| == |weaks|
            && forall v :: 0 <= v < |weaks| ==>
                 && weaks'[v].alive == weaks[v].alive
                 && weaks'[v].borrows == weaks[v].borrows - (if v == w then 1 else 0)
  {
  }

  lemma GoBorrows(s: State, i: nat)
    requires BorrowInv(s) && Enabled(s, Go(i))
    ensures BorrowInv(GoOn(s, i))
  {
    hide Tally, Release, Counts, Promises;
    var s' := GoOn(s, i);
    var op, op' := s.ops[i], s'.ops[i];
    assert s'.ops == s.ops[i := op'];
    if op.UpgradeTest? || op.UpgradeUndo? {
      assert Through(op, op.w);
      TallyAtLeast(s.ops, Borrows(op.w), i);
      ReleaseBorrows(s.weaks, op.w);
    }
    assert |s'.weaks| == |s.weaks|;
    forall w | 0 <= w < |s'.weaks|
      ensures s'.weaks[w].borrows == Tally(s'.ops, Borrows(w))
      ensures s'.weaks[w].alive == s.weaks[w].alive && s'.weaks[w].borrows <= s.weaks[w].borrows
    {
      TallyUpdate(s.ops, Borrows(w), i, op');
      assert Borrows(w)(op) == (if Through(op, w) then 1 else 0) && Borrows(w)(op') == (if Through(op', w) then 1 else 0);
    }
    forall j, w: nat | 0 <= j < |s'.ops| && Through(s'.ops[j], w) ensures w < |s'.weaks| {
      assert Through(s.ops[j], w);
    }
  }

  lemma StepBorrows(s: State, t: Step)
    requires Inv(s) && Enabled(s, t)
    ensures BorrowInv(Apply(s, t))
  {
    hide Tally, CountInv, LaunchInv, FreedInv, Release;
    var s' := Apply(s, t);
    match t
    case Go(i) => GoBorrows(s, i);
    case StartUpgrade(w0) =>
      forall w | 0 <= w < |s'.weaks| ensures s'.weaks[w].borrows == Tally(s'.ops, Borrows(w)) {
        TallyAppend(s.ops, Borrows(w), UpgradeAdd(w0));
      }
    case StartDrop =>
      forall w | 0 <= w < |s'.weaks| ensures s'.weaks[w].borrows == Tally(s'.ops, Borrows(w)) {
        TallyAppend(s.ops, Borrows(w), DropSub);
      }
    case Downgrade => NewWeakUnborrowed(s);
    case WeakClone(_) => NewWeakUnborrowed(s);
    case _ =>
  }

  lemma NewWeakUnborrowed(s: State)
    requires BorrowInv(s)
    ensures Tally(s.ops, Borrows(|s.weaks|)) == 0
  {
    forall i | 0 <= i < |s.ops| ensures Borrows(|s.weaks|)(s.ops[i]) == 0 {
      assert !Through(s.ops[i], |s.weaks|);
    }
    TallyZero(s.ops, Borrows(|s.weaks|));
  }

  lemma GoPromises(s: State, i: nat)
    requires Inv(s) && Enabled(s, Go(i)) && GoOn(s, i).launches == 0
    ensures GoOn(s, i).handles + Tally(GoOn(s, i).ops, Promises) >= 1
  {
    hide Tally, BorrowInv, FreedInv, Release;
    var s' := GoOn(s, i);
    var op, op' := s.ops[i], s'.ops[i];
    assert s.valid && s'.ops == s.ops[i := op'];
    TallyUpdate(s.ops, Promises, i, op');
    TallyAtLeast(s'.ops, Promises, i);
    if op.DropTest? && s.local != 0 {
      SomethingLeft(s, i);
    } else if op.DropCas? {
      assert ChainFrom(s.mode, op.i) && ChainFrom(s.mode, op.i + 1);
    }
  }

  lemma GoLaunches(s: State, i: nat)
    requires Inv(s) && Enabled(s, Go(i))
    ensures LaunchInv(GoOn(s, i))
  {
    hide Tally, CountInv, BorrowInv, FreedInv, Release;
    if GoOn(s, i).launches == 0 { GoPromises(s, i); }
    if s.ops[i].DropTest? && !s.mode.Dropped? { ChainHasAll(s.mode); }
  }

  /** Whether an operation counted in the local count holds, or may yet get, a handle. */
  function Holds(op: Op): nat {
    if op.UpgradeTest? || op.DropSub? then 1 else 0
  }

  lemma {:induction false} CountsAreHolds(ops: seq<Op>)
    requires forall i :: 0 <= i < |ops| ==> !ops[i].UpgradeUndo?
    ensures Tally(ops, Counts) == Tally(ops, Holds) <= Tally(ops, Promises)
  {
    if ops != [] { CountsAreHolds(ops[..|ops| - 1]); }
  }

  /** A count other than 0 seen by a drop, with the Darc valid, stands for a handle or for
      another operation that will deal with it. */
  lemma SomethingLeft(s: State, i: nat)
    requires Inv(s) && s.local != 0 && s.valid && i < |s.ops| && s.ops[i].DropTest?
    ensures s.handles + Tally(s.ops[i := Done], Promises) >= 1
  {
    CountsAreHolds(s.ops);
    TallyUpdate(s.ops, Holds, i, Done);
    CountsAreHolds(s.ops[i := Done]);
  }

  lemma StepLaunches(s: State, t: Step)
    requires Inv(s) && Enabled(s, t)
    ensures LaunchInv(Apply(s, t))
  {
    hide Tally, CountInv, BorrowInv, FreedInv, ChainFrom, Release;
    match t
    case Go(i) => GoLaunches(s, i);
    case StartUpgrade(w) => TallyAppend(s.ops, Promises, UpgradeAdd(w));
    case StartDrop => TallyAppend(s.ops, Promises, DropSub);
    case _ =>
  }

  lemma StepFreed(s: State, t: Step)
    requires Inv(s) && Enabled(s, t)
    ensures FreedInv(Apply(s, t))
  {
    hide Tally, BorrowInv, ChainFrom;
    var s' := Apply(s, t);
    match t
    case TaskReadLocal =>
      if s.local == 0 {
        forall i | 0 <= i < |s.ops| ensures !s.ops[i].DropSub? { TallyAtLeast(s.ops, Counts, i); }
      }
    case TaskReadWeak =>
      if s.weakCnt == 0 {
        forall w | 0 <= w < |s.weaks| ensures !s.weaks[w].alive { TallyAtLeast(s.weaks, Lives, w); }
      }
    case _ =>
  }

  lemma {:induction false} RunInv(mode: Mode, steps: seq<Step>)
    requires mode != Dropped && Run(mode, steps).Some?
    ensures Inv(Run(mode, steps).value)
    decreases |steps|
  {
    if steps == [] {
      InitInv(mode);
    } else {
      RunInv(mode, steps[..|steps| - 1]);
      var s, t := Run(mode, steps[..|steps| - 1]).value, steps[|steps| - 1];
      StepCount(s, t);
      StepBorrows(s, t);
      StepLaunches(s, t);
      StepFreed(s, t);
    }
  }

  // ---------------------------------------------------------------- what it gives

  /** No strong handle, from an upgrade or otherwise, outlives the item; after the item is
      freed every upgrade still to be decided will find the Darc invalid. */
  lemma NoHandleAfterItemFreed(mode: Mode, steps: seq<Step>)
    requires mode != Dropped && Run(mode, steps).Some?
    requires Run(mode, steps).value.task.ItemFreed? || Run(mode, steps).value.task.MemoryFreed?
    ensures var s := Run(mode, steps).value;
            && s.handles == 0 && !s.valid
            && forall i :: 0 <= i < |s.ops| ==> !s.ops[i].DropSub?
  {
    RunInv(mode, steps);
  }

  /** The inner memory goes only after every weak handle is gone, with no upgrade still
      under way through one of them. */
  lemma NoWeakAfterMemoryFreed(mode: Mode, steps: seq<Step>)
    requires mode != Dropped && Run(mode, steps).Some? && Run(mode, steps).value.task.MemoryFreed?
    ensures var s := Run(mode, steps).value;
            && (forall w :: 0 <= w < |s.weaks| ==> !s.weaks[w].alive)
            && (forall i, w: nat :: 0 <= i < |s.ops| ==> !Through(s.ops[i], w))
  {
    RunInv(mode, steps);
    var s := Run(mode, steps).value;
    forall i, w: nat | 0 <= i < |s.ops| ensures !Through(s.ops[i], w) {
      if Through(s.ops[i], w) { TallyAtLeast(s.ops, Borrows(w), i); }
    }
  }

  /** However the drops race, the clean-up task is launched at most once; and it is not
      lost: with no handle left and no operation under way it has been launched. */
  lemma LaunchedExactlyOnce(mode: Mode, steps: seq<Step>)
    requires mode != Dropped && Run(mode, steps).Some?
    ensures var s := Run(mode, steps).value;
            && s.launches <= 1
            && (s.handles == 0 && (forall i :: 0 <= i < |s.ops| ==> s.ops[i].Done?) ==> s.launches == 1)
  {
    RunInv(mode, steps);
    var s := Run(mode, steps).value;
    if forall i :: 0 <= i < |s.ops| ==> s.ops[i].Done? {
      TallyZero(s.ops, Promises);
    }
  }
}
