/** How a group cuts the messages queued for one destination into requests. */
module AmGroupSplit {
  import opened Arith
  import opened Sums

  const Target: nat := 1_000_000
  const Limit: nat := 100_000_000

  /** A request carries the messages `si` up to `ei`. */
  datatype Range = Range(si: nat, ei: nat)

  /** Each request but the last is meant to exceed this size. */
  function ReqSize(total: nat): nat {
    total / (total / Target + 1)
  }

  function Load(sizes: seq<nat>, r: Range): nat
    requires r.si <= r.ei <= |sizes|
  {
    Sum(sizes[r.si..r.ei])
  }

  predicate AllBelowLimit(sizes: seq<nat>) {
    forall j :: 0 <= j < |sizes| ==> sizes[j] < Limit
  }

  /** How far a list of requests reaches. */
  function Reach(rs: seq<Range>): nat {
    if rs == [] then 0 else rs[|rs| - 1].ei
  }

  /** The requests are non-empty and follow each other from message 0 on, so each message
      below `Reach(rs)` is in exactly one of them, in order. */
  predicate Chain(rs: seq<Range>) {
    && (forall j :: 0 <= j < |rs| ==> rs[j].si < rs[j].ei)
    && (forall j :: 0 <= j < |rs| ==> rs[j].si == Reach(rs[..j]))
  }

  /** Each request stays under the hard limit. */
  predicate UnderLimit(sizes: seq<nat>, rs: seq<Range>) {
    forall j :: 0 <= j < |rs| ==> rs[j].si <= rs[j].ei <= |sizes| && Load(sizes, rs[j]) < Limit
  }

  /** Requests are as long as the target size asks for and no longer: without its last message
      a request is not above it, and a request not above it is cut by the hard limit. */
  predicate Greedy(sizes: seq<nat>, req: nat, rs: seq<Range>) {
    && (forall j :: 0 <= j < |rs| ==> NotAbove(sizes, req, rs[j]))
    && (forall j :: 0 <= j < |rs| ==> Above(sizes, req, rs[j]))
  }

  /** The same, with the last request as long as what was left for it. */
  predicate Cut(sizes: seq<nat>, req: nat, rs: seq<Range>) {
    && (forall j :: 0 <= j < |rs| ==> NotAbove(sizes, req, rs[j]))
    && (forall j :: 0 <= j < |rs| - 1 ==> Above(sizes, req, rs[j]))
  }

  predicate NotAbove(sizes: seq<nat>, req: nat, r: Range) {
    r.si < r.ei <= |sizes| && Sum(sizes[r.si..r.ei - 1]) <= req
  }

  predicate Above(sizes: seq<nat>, req: nat, r: Range) {
    && r.si <= r.ei <= |sizes|
    && (Load(sizes, r) > req || (r.ei < |sizes| && Load(sizes, r) + sizes[r.ei] >= Limit))
  }

  /** The size waiting to be sent once the first `k` messages have been taken, from the sizes
      alone: a message that would reach the hard limit starts afresh, and a size above
      `req` is sent at once. */
  function Pending(sizes: seq<nat>, req: nat, k: nat): nat
    requires k <= |sizes|
  {
    if k == 0 then 0
    else
      var before, s := Pending(sizes, req, k - 1), sizes[k - 1];
      var load := if before + s < Limit then before + s else s;
      if load > req then 0 else load
  }

  /** Every message goes out: the last one has a size, or waits behind one that has. */
  predicate NothingLost(sizes: seq<nat>, total: nat) {
    sizes == [] || sizes[|sizes| - 1] > 0 || Pending(sizes, ReqSize(total), |sizes|) > 0
  }

  // ---------------------------------------------------------------- the loop

  datatype Loop = Loop(i: nat, start: nat, temp: nat, sent: seq<Range>)

  /** One iteration of the splitting loop. */
  function Step(sizes: seq<nat>, req: nat, s: Loop): Loop
    requires s.i < |sizes|
  {
    var size := sizes[s.i];
    if s.temp + size < Limit then
      if s.temp + size > req then Loop(s.i + 1, s.i + 1, 0, s.sent + [Range(s.start, s.i + 1)])
      else Loop(s.i + 1, s.start, s.temp + size, s.sent)
    else Loop(s.i, s.i, 0, s.sent + [Range(s.start, s.i)])
  }

  /** The state after `k` iterations, or the final state if the loop ends earlier. */
  function After(sizes: seq<nat>, req: nat, k: nat): Loop {
    if k == 0 then Loop(0, 0, 0, [])
    else
      var s := After(sizes, req, k - 1);
      if s.i < |sizes| then Step(sizes, req, s) else s
  }

  ghost predicate Ends(sizes: seq<nat>, req: nat) {
    exists k :: After(sizes, req, k).i >= |sizes|
  }

  /** A message at or above the limit is never passed: the loop sends empty requests forever. */
  lemma {:induction false} NeverPassed(sizes: seq<nat>, req: nat, j: nat, k: nat)
    requires j < |sizes| && sizes[j] >= Limit
    ensures After(sizes, req, k).i <= j
  {
    if k > 0 {
      NeverPassed(sizes, req, j, k - 1);
    }
  }

  function Effort(s: Loop): nat {
    2 * s.i + if s.temp == 0 then 1 else 0
  }

  lemma {:induction false} EffortGrows(sizes: seq<nat>, req: nat, k: nat)
    requires AllBelowLimit(sizes)
    ensures var s := After(sizes, req, k);
            s.i <= |sizes| && (s.i == |sizes| || Effort(s) > k)
  {
    if k > 0 {
      EffortGrows(sizes, req, k - 1);
    }
  }

  /** The loop ends exactly when every message is below the limit. */
  lemma EndsIff(sizes: seq<nat>, req: nat)
    ensures Ends(sizes, req) <==> AllBelowLimit(sizes)
  {
    if AllBelowLimit(sizes) {
      EffortGrows(sizes, req, 2 * |sizes| + 1);
    } else {
      var j :| 0 <= j < |sizes| && sizes[j] >= Limit;
      forall k ensures After(sizes, req, k).i < |sizes| {
        NeverPassed(sizes, req, j, k);
      }
    }
  }

  // ---------------------------------------------------------------- what the loop keeps

  /** A hard flush has just happened: the next message is close to the limit by itself. */
  predicate Flushed(sizes: seq<nat>, req: nat, s: Loop) {
    && s.i < |sizes| && s.temp == 0
    && Pending(sizes, req, s.i) + sizes[s.i] >= Limit && sizes[s.i] + req >= Limit
  }

  predicate LoopInv(sizes: seq<nat>, req: nat, s: Loop) {
    && s.start <= s.i <= |sizes|
    && Chain(s.sent) && Reach(s.sent) == s.start && UnderLimit(sizes, s.sent)
    && Greedy(sizes, req, s.sent)
    && s.temp == Sum(sizes[s.start..s.i]) && s.temp <= req
    && (s.start == s.i == |sizes| > 0 ==> sizes[s.i - 1] > 0)
  }

  /** Requests are paid for by the sizes they carry; a hard flush borrows from the message
      that caused it. */
  predicate Paid(sizes: seq<nat>, req: nat, s: Loop)
    requires s.i <= |sizes|
  {
    || (s.temp == Pending(sizes, req, s.i) && |s.sent| * (req + 1) + s.temp <= Sum(sizes[..s.i]))
    || (Flushed(sizes, req, s) && |s.sent| > 0 && (|s.sent| - 1) * (req + 1) <= Sum(sizes[..s.i]))
  }

  lemma ChainAppend(rs: seq<Range>, r: Range)
    requires Chain(rs) && r.si == Reach(rs) && r.si < r.ei
    ensures Chain(rs + [r]) && Reach(rs + [r]) == r.ei
  {
    var rs' := rs + [r];
    forall j | 0 <= j < |rs'| ensures rs'[j].si == Reach(rs'[..j]) {
      if j < |rs| { assert rs'[..j] == rs[..j]; } else { assert rs'[..j] == rs; }
    }
  }

  lemma SumTake(sizes: seq<nat>, a: nat, i: nat)
    requires a <= i < |sizes|
    ensures Sum(sizes[a..i + 1]) == Sum(sizes[a..i]) + sizes[i]
  {
    assert sizes[a..i + 1] == sizes[a..i] + [sizes[i]];
    SumAppend(sizes[a..i], sizes[i]);
  }

  lemma SumPositive(s: seq<nat>)
    requires Sum(s) > 0
    ensures s != []
  {
  }

  /** What an iteration sends. */
  lemma SentGreedy(sizes: seq<nat>, req: nat, s: Loop)
    requires s.start <= s.i < |sizes| && s.temp == Sum(sizes[s.start..s.i]) && s.temp <= req
    requires Step(sizes, req, s).sent != s.sent && (s.start == s.i ==> sizes[s.i] < Limit)
    ensures var r := Range(s.start, Step(sizes, req, s).i);
            NotAbove(sizes, req, r) && Above(sizes, req, r)
  {
    SumTake(sizes, s.start, s.i);
    if s.start < s.i { SumTake(sizes, s.start, s.i - 1); }
  }

  lemma StepKeepsInv(sizes: seq<nat>, req: nat, s: Loop)
    requires LoopInv(sizes, req, s) && s.i < |sizes| && AllBelowLimit(sizes) && req < Target
    ensures LoopInv(sizes, req, Step(sizes, req, s))
  {
    hide Chain, Sum, Reach, NotAbove, Above;
    SumTake(sizes, s.start, s.i);
    var s' := Step(sizes, req, s);
    if s'.sent != s.sent {
      var r := Range(s.start, s'.i);
      if s'.i == s.i {
        SumPositive(sizes[s.start..s.i]);
        SumTake(sizes, s.start, s.i - 1);
      }
      SentGreedy(sizes, req, s);
      ChainAppend(s.sent, r);
      assert Load(sizes, r) < Limit;
      assert sizes[s'.i..s'.i] == [];
      SumZeroes(sizes[s'.i..s'.i]);
    }
  }

  lemma StepKeepsPaid(sizes: seq<nat>, req: nat, s: Loop)
    requires s.i < |sizes| && AllBelowLimit(sizes) && req < Target && s.temp <= req
    requires Paid(sizes, req, s)
    ensures Paid(sizes, req, Step(sizes, req, s))
  {
    hide Sum;
    SumTake(sizes, 0, s.i);
    assert sizes[0..s.i] == sizes[..s.i] && sizes[0..s.i + 1] == sizes[..s.i + 1];
    var k, p := |s.sent|, req + 1;
    assert (k + 1) * p == k * p + p;
    assert (k - 1) * p == k * p - p;
  }

  lemma ReqSizeBounds(total: nat)
    ensures ReqSize(total) < Target
    ensures (total / Target + 1) * (ReqSize(total) + 1) > total
  {
    var n, req := total / Target + 1, ReqSize(total);
    assert total == n * req + total % n;
    assert total < n * Target;
    if req >= Target {
      MulMonotone(n, n, Target, req);
    }
    assert n * (req + 1) == n * req + n;
  }

  /** What is left unsent at the end has no size. */
  lemma LostTail(sizes: seq<nat>, req: nat, s: Loop)
    requires LoopInv(sizes, req, s) && s.i == |sizes| && s.temp == 0
    ensures forall j :: s.start <= j < |sizes| ==> sizes[j] == 0
  {
    hide Chain, UnderLimit, Greedy;
    forall j | s.start <= j < |sizes| ensures sizes[j] == 0 {
      SumAtLeast(sizes[s.start..s.i], j - s.start);
    }
  }

  /** The bookkeeping the loop ends with bounds the number of requests. */
  lemma PaidBounds(sizes: seq<nat>, total: nat, s: Loop)
    requires s.i == |sizes| && Paid(sizes, ReqSize(total), s) && Sum(sizes) <= total
    ensures |s.sent| + 1 <= total / Target + 1
  {
    var n, p, k := total / Target + 1, ReqSize(total) + 1, |s.sent|;
    ReqSizeBounds(total);
    assert sizes[..s.i] == sizes;
    if k >= n {
      MulMonotone(n, k, p, p);
    }
  }

  /** The requests when the loop is over: what waits, if it has a size, is sent too. */
  function Finish(s: Loop): seq<Range> {
    if s.temp > 0 then s.sent + [Range(s.start, s.i)] else s.sent
  }

  lemma FinishNotAbove(sizes: seq<nat>, req: nat, s: Loop)
    requires s.start <= s.i == |sizes| && 0 < s.temp == Sum(sizes[s.start..s.i]) && s.temp <= req
    ensures NotAbove(sizes, req, Range(s.start, s.i))
  {
    SumPositive(sizes[s.start..s.i]);
    SumTake(sizes, s.start, s.i - 1);
  }

  lemma FinishCovers(sizes: seq<nat>, req: nat, s: Loop)
    requires LoopInv(sizes, req, s) && Paid(sizes, req, s) && s.i == |sizes| && req < Target
    ensures var rs := Finish(s);
            && Chain(rs) && UnderLimit(sizes, rs)
            && Cut(sizes, req, rs)
            && Reach(rs) == (if s.temp > 0 then |sizes| else s.start)
  {
    hide Sum, Reach, Chain, NotAbove, Above, Paid;
    if s.temp > 0 {
      FinishNotAbove(sizes, req, s);
      ChainAppend(s.sent, Range(s.start, s.i));
      assert Load(sizes, Range(s.start, s.i)) < Limit;
    }
  }

  /** The requests reach every message unless the queue ends in messages without size and
      nothing waits when they are taken; those are then never sent. */
  lemma FinishReaches(sizes: seq<nat>, total: nat, s: Loop)
    requires LoopInv(sizes, ReqSize(total), s) && Paid(sizes, ReqSize(total), s) && s.i == |sizes|
    ensures var rs := Finish(s);
            && Reach(rs) <= |sizes| && (forall j :: Reach(rs) <= j < |sizes| ==> sizes[j] == 0)
            && (Reach(rs) == |sizes| <==> NothingLost(sizes, total))
  {
    ReqSizeBounds(total);
    FinishCovers(sizes, ReqSize(total), s);
    hide Chain, UnderLimit, Finish, ReqSize, NotAbove, Above;
    if s.temp == 0 {
      LostTail(sizes, ReqSize(total), s);
    }
  }

  /** The splitting loop. */
  method TakeAll(sizes: seq<nat>, reqSize: nat) returns (i: nat, start: nat, temp: nat, rs: seq<Range>)
    requires AllBelowLimit(sizes) && reqSize < Target
    ensures LoopInv(sizes, reqSize, Loop(i, start, temp, rs)) && Paid(sizes, reqSize, Loop(i, start, temp, rs))
    ensures i == |sizes|
  {
    hide Chain, UnderLimit, Sum, Reach, Pending, Load, Greedy;
    var send := false;
    temp, i, start, rs := 0, 0, 0, [];
    Begins(sizes, reqSize);
    while i < |sizes|
      invariant LoopInv(sizes, reqSize, Loop(i, start, temp, rs)) && !send
      invariant Paid(sizes, reqSize, Loop(i, start, temp, rs))
      decreases |sizes| - i, temp
    {
      ghost var s := Loop(i, start, temp, rs);
      StepKeepsInv(sizes, reqSize, s);
      StepKeepsPaid(sizes, reqSize, s);
      var amSize := sizes[i];
      if temp + amSize < Limit {
        temp := temp + amSize;
        i := i + 1;
        if temp > reqSize {
          send := true;
        }
      } else {
        send := true;
      }
      if send {
        rs := rs + [Range(start, i)];
        send := false;
        start := i;
        temp := 0;
      }
      assert Loop(i, start, temp, rs) == Step(sizes, reqSize, s);
    }
  }

  lemma Begins(sizes: seq<nat>, req: nat)
    ensures LoopInv(sizes, req, Loop(0, 0, 0, [])) && Paid(sizes, req, Loop(0, 0, 0, []))
  {
  }

  /** Cuts a queue of messages with the given sizes into requests; `total` is the size the
      queue has accumulated. */
  method Split(sizes: seq<nat>, total: nat) returns (rs: seq<Range>)
    requires total > Target ==> AllBelowLimit(sizes)
    ensures total <= Target ==> rs == [Range(0, |sizes|)]
    ensures total > Target ==> Chain(rs) && UnderLimit(sizes, rs)
    ensures Reach(rs) <= |sizes| && forall j :: Reach(rs) <= j < |sizes| ==> sizes[j] == 0
    ensures total > Target ==> (Reach(rs) == |sizes| <==> NothingLost(sizes, total))
    ensures Sum(sizes) <= total ==> |rs| <= total / Target + 1
    ensures total > Target ==> Cut(sizes, total / (total / Target + 1), rs)
  {
    if total > Target {
      var numReqs := total / Target + 1;
      var reqSize := total / numReqs;
      ReqSizeBounds(total);
      var i, start, temp;
      i, start, temp, rs := TakeAll(sizes, reqSize);
      ghost var done := Loop(i, start, temp, rs);
      FinishCovers(sizes, reqSize, done);
      FinishReaches(sizes, total, done);
      if Sum(sizes) <= total { PaidBounds(sizes, total, done); }
      hide Chain, UnderLimit, Sum, Reach, Pending, ReqSize, Load, Cut, LoopInv, Paid;
      if temp > 0 {
        rs := rs + [Range(start, i)];
      }
    } else {
      rs := [Range(0, |sizes|)];
    }
  }

  /** The messages the requests carry, in the order they are sent. */
  function Carried<T>(ams: seq<T>, rs: seq<Range>): seq<T>
    requires forall j :: 0 <= j < |rs| ==> rs[j].si <= rs[j].ei <= |ams|
  {
    if rs == [] then []
    else
      var r := rs[|rs| - 1];
      Carried(ams, rs[..|rs| - 1]) + ams[r.si..r.ei]
  }

  /** A chain of requests carries the messages it reaches: each once and in order. */
  lemma {:induction false} ChainCarries<T>(ams: seq<T>, rs: seq<Range>)
    requires Chain(rs) && forall j :: 0 <= j < |rs| ==> rs[j].si <= rs[j].ei <= |ams|
    ensures Reach(rs) <= |ams| && Carried(ams, rs) == ams[..Reach(rs)]
  {
    if rs != [] {
      var n := |rs| - 1;
      var init := rs[..n];
      assert forall j :: 0 <= j < n ==> rs[..j] == init[..j];
      ChainCarries(ams, init);
      assert ams[..rs[n].si] + ams[rs[n].si..rs[n].ei] == ams[..rs[n].ei];
    }
  }

  /** A message without size behind one that is sent at once is lost. */
  lemma SizelessTailLost(a: nat)
    requires Target < a < Limit
    ensures !NothingLost([a, 0], a)
  {
    ReqSizeBounds(a);
    assert Pending([a, 0], ReqSize(a), 1) == 0;
  }
}
