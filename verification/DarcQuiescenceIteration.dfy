/** One iteration of the detector as a whole: when a PE goes on, in terms of what it found in the
    counters and slots at each of its steps. */
module DarcQuiescenceIteration {
  import opened Sums
  import opened DarcCounts
  import opened DarcQuiescence
  import opened DarcQuiescenceLocal
  import opened DarcQuiescenceExit

  /** What a PE finds at one of its steps: its counters and the slots it can read. */
  datatype Found = Found(me: Inner, refs: seq<nat>, ids: seq<nat>)

  predicate Shaped(n: nat, found: seq<Found>) {
    forall u :: 0 <= u < |found| ==>
      |found[u].me.totalRef| == n && |found[u].refs| == n && |found[u].ids| == n
  }

  /** The state after `t` steps, each finding the next entry of `found`; the step at place `u` of
      an iteration finds `found[u]`. */
  function Follow(n: nat, d: Det, found: seq<Found>, t: nat): (d': Det)
    requires Ranged(n, d) && Shaped(n, found) && t <= |found|
    ensures Ranged(n, d')
  {
    if t == 0 then d
    else
      var b := Follow(n, d, found, t - 1);
      if b.pc.Exit? then b
      else NextDet(n, b, found[t - 1].me, found[t - 1].refs, found[t - 1].ids)
  }

  function RefRead(found: seq<Found>, j: nat): nat
    requires 2 + j < |found| && j < |found[2 + j].me.totalRef|
  {
    found[2 + j].me.totalRef[j]
  }

  /** The sum of the first `i` slots as the checking loop finds them. */
  function SlotSum(n: nat, found: seq<Found>, i: nat): nat
    requires Shaped(n, found) && i <= n && |found| >= 5 * n + 15
  {
    if i == 0 then 0 else SlotSum(n, found, i - 1) + found[2 * n + 9 + i - 1].refs[i - 1]
  }

  /** The step at place `u` finds a reason to go on: a reference count that differs from the
      previous iteration's, a count that grew between its snapshot and its check, a slot sum
      other than what was sent, or a PE that advertises 0. */
  predicate Reason(n: nat, prev: seq<nat>, found: seq<Found>, u: nat)
    requires Shaped(n, found) && |prev| == n && |found| >= 5 * n + 15
  {
    if n + 5 <= u < 2 * n + 5 then prev[u - n - 5] != RefRead(found, u - n - 5)
    else if u == 2 * n + 7 then found[n + 3].me.totalLocal != found[u].me.totalLocal
    else if u == 2 * n + 8 then found[n + 4].me.totalDist != found[u].me.totalDist
    else if 2 * n + 9 <= u < 3 * n + 9 then
      RefRead(found, u - 2 * n - 9) != found[u].me.totalRef[u - 2 * n - 9]
    else if u == 3 * n + 10 then SlotSum(n, found, n) != found[n + 4].me.totalDist
    else if 4 * n + 14 <= u < 5 * n + 14 then found[u].ids[u - 4 * n - 14] == 0
    else false
  }

  ghost predicate SomeReason(n: nat, prev: seq<nat>, found: seq<Found>, t: nat)
    requires Shaped(n, found) && |prev| == n && |found| >= 5 * n + 15
  {
    exists u :: 0 <= u < t && Reason(n, prev, found, u)
  }

  /** A PE is at place `t` of an iteration it began with `d0`. */
  predicate Reached(n: nat, d0: Det, t: nat, d: Det) {
    && Ranged(n, d) && Begun(d.pc) && !d.pc.Exit? && Place(n, d.pc) == t
    && d.iter == d0.iter && d.prev == d0.prev
  }

  lemma ReachedEarly(n: nat, d0: Det, t: nat, d: Det, f: Found)
    requires Reached(n, d0, t, d) && t <= 2 * n + 5
    requires |f.me.totalRef| == n && |f.refs| == n && |f.ids| == n
    ensures Reached(n, d0, t + 1, NextDet(n, d, f.me, f.refs, f.ids))
  {
  }

  lemma ReachedChecks(n: nat, d0: Det, t: nat, d: Det, f: Found)
    requires Reached(n, d0, t, d) && 2 * n + 5 < t < 5 * n + 14
    requires |f.me.totalRef| == n && |f.refs| == n && |f.ids| == n
    ensures Reached(n, d0, t + 1, NextDet(n, d, f.me, f.refs, f.ids))
  {
  }

  lemma ReachedNext(n: nat, d0: Det, t: nat, d: Det, f: Found)
    requires Reached(n, d0, t, d) && t < 5 * n + 14
    requires |f.me.totalRef| == n && |f.refs| == n && |f.ids| == n
    ensures Reached(n, d0, t + 1, NextDet(n, d, f.me, f.refs, f.ids))
  {
    assert Ranged(n, d) && !d.pc.Exit?;
    hide NextDet, Reached;
    if t <= 2 * n + 5 {
      ReachedEarly(n, d0, t, d, f);
    } else {
      ReachedChecks(n, d0, t, d, f);
    }
  }

  /** The snapshots of a PE at place `t` of an iteration it began with `d0`. */
  ghost predicate Snaps(n: nat, d0: Det, found: seq<Found>, t: nat, d: Det)
    requires Shaped(n, found) && Ranged(n, d0) && d0.pc.Wait? && |found| >= 5 * n + 15
  {
    && Reached(n, d0, t, d)
    && (t >= 2 ==> |d.snap| <= n && forall j :: 0 <= j < |d.snap| ==> d.snap[j] == RefRead(found, j))
    && (t > n + 3 ==> d.snapLocal == found[n + 3].me.totalLocal)
    && (t > n + 4 ==> d.snapDist == found[n + 4].me.totalDist)
    && (d.pc.CheckRefs? ==> d.sum == SlotSum(n, found, d.pc.i))
    && (d.pc.CheckSum? ==> d.sum == SlotSum(n, found, n))
  }

  /** A PE has flagged exactly the reasons it has found, and advertises 0 exactly if it found one
      by its last check. */
  ghost predicate Flagged(n: nat, d0: Det, found: seq<Found>, t: nat, d: Det)
    requires Shaped(n, found) && Ranged(n, d0) && d0.pc.Wait? && |found| >= 5 * n + 15
  {
    && (t >= 1 ==> (d.outstanding <==> SomeReason(n, d0.prev, found, t)))
    && (t >= 1 && d.bid == 0 ==> d.outstanding)
    && (t > 3 * n + 10 ==> (d.bid == 0 <==> SomeReason(n, d0.prev, found, 3 * n + 11)))
  }

  /** Taking the snapshots. */
  lemma SnapsGathered(n: nat, d0: Det, found: seq<Found>, t: nat, d: Det)
    requires Shaped(n, found) && Ranged(n, d0) && d0.pc.Wait? && |found| >= 5 * n + 15
    requires t <= n + 4 && Snaps(n, d0, found, t, d)
    requires Reached(n, d0, t + 1, NextDet(n, d, found[t].me, found[t].refs, found[t].ids))
    ensures Snaps(n, d0, found, t + 1, NextDet(n, d, found[t].me, found[t].refs, found[t].ids))
  {
  }

  /** Keeping them. */
  lemma SnapsKept(n: nat, d0: Det, found: seq<Found>, t: nat, d: Det)
    requires Shaped(n, found) && Ranged(n, d0) && d0.pc.Wait? && |found| >= 5 * n + 15
    requires n + 4 < t < 5 * n + 14 && Snaps(n, d0, found, t, d)
    ensures var d' := NextDet(n, d, found[t].me, found[t].refs, found[t].ids);
            && d'.snap == d.snap && d'.snapLocal == d.snapLocal && d'.snapDist == d.snapDist
            && (d'.pc.CheckRefs? ==> d'.sum == SlotSum(n, found, d'.pc.i))
            && (d'.pc.CheckSum? ==> d'.sum == SlotSum(n, found, n))
  {
  }

  lemma SnapsNext(n: nat, d0: Det, found: seq<Found>, t: nat, d: Det)
    requires Shaped(n, found) && Ranged(n, d0) && d0.pc.Wait? && |found| >= 5 * n + 15
    requires t < 5 * n + 14 && Snaps(n, d0, found, t, d)
    ensures Snaps(n, d0, found, t + 1, NextDet(n, d, found[t].me, found[t].refs, found[t].ids))
  {
    hide NextDet, Reached, SlotSum;
    ReachedNext(n, d0, t, d, found[t]);
    if t <= n + 4 {
      SnapsGathered(n, d0, found, t, d);
    } else {
      SnapsKept(n, d0, found, t, d);
    }
  }

  lemma ReasonNext(n: nat, prev: seq<nat>, found: seq<Found>, t: nat)
    requires Shaped(n, found) && |prev| == n && |found| >= 5 * n + 15
    ensures SomeReason(n, prev, found, t + 1) <==> SomeReason(n, prev, found, t) || Reason(n, prev, found, t)
  {
  }

  /** A step flags exactly the reason it finds. */
  lemma NextFlag(n: nat, d0: Det, found: seq<Found>, t: nat, d: Det)
    requires Shaped(n, found) && Ranged(n, d0) && d0.pc.Wait? && |found| >= 5 * n + 15
    requires 1 <= t < 5 * n + 14 && Snaps(n, d0, found, t, d)
    ensures var d' := NextDet(n, d, found[t].me, found[t].refs, found[t].ids);
            && (d'.outstanding <==> d.outstanding || Reason(n, d0.prev, found, t))
            && (d'.bid == 0 ==> d.bid == 0 || d'.outstanding)
            && (t == 3 * n + 10 ==> (d'.bid == 0 <==> d'.outstanding || d.bid == 0))
            && (t > 3 * n + 10 ==> d'.bid == d.bid)
  {
  }

  lemma FlaggedNext(n: nat, d0: Det, found: seq<Found>, t: nat, d: Det)
    requires Shaped(n, found) && Ranged(n, d0) && d0.pc.Wait? && |found| >= 5 * n + 15 && d0.iter >= 1
    requires t < 5 * n + 14 && Snaps(n, d0, found, t, d) && Flagged(n, d0, found, t, d)
    ensures Flagged(n, d0, found, t + 1, NextDet(n, d, found[t].me, found[t].refs, found[t].ids))
  {
    if t == 0 {
      NoReason(n, d0.prev, found);
    } else {
      NextFlag(n, d0, found, t, d);
      hide SomeReason, NextDet, Snaps;
      ReasonNext(n, d0.prev, found, t);
    }
  }

  lemma NoReason(n: nat, prev: seq<nat>, found: seq<Found>)
    requires Shaped(n, found) && |prev| == n && |found| >= 5 * n + 15
    ensures !SomeReason(n, prev, found, 1)
  {
  }

  lemma {:induction false} Followed(n: nat, d0: Det, found: seq<Found>, t: nat)
    requires Shaped(n, found) && Ranged(n, d0) && d0.pc.Wait? && |found| >= 5 * n + 15 && d0.iter >= 1
    requires t <= 5 * n + 14
    ensures Snaps(n, d0, found, t, Follow(n, d0, found, t)) && Flagged(n, d0, found, t, Follow(n, d0, found, t))
  {
    hide NextDet, Flagged;
    if t > 0 {
      Followed(n, d0, found, t - 1);
      SnapsNext(n, d0, found, t - 1, Follow(n, d0, found, t - 1));
      FlaggedNext(n, d0, found, t - 1, Follow(n, d0, found, t - 1));
    } else {
      FlaggedFirst(n, d0, found);
    }
  }

  lemma FlaggedFirst(n: nat, d0: Det, found: seq<Found>)
    requires Shaped(n, found) && Ranged(n, d0) && d0.pc.Wait? && |found| >= 5 * n + 15
    ensures Flagged(n, d0, found, 0, d0)
  {
  }

  /** An iteration, whatever else happens meanwhile: the PE advertises 0 exactly if one of its own
      steps up to the last check found a reason to go on, it leaves exactly if none of its steps
      found one, and otherwise it goes on with this iteration's reference counts as the previous
      ones. */
  lemma IterationDecides(n: nat, d0: Det, found: seq<Found>)
    requires Shaped(n, found) && Ranged(n, d0) && d0.pc.Wait? && |found| == 5 * n + 15 && d0.iter >= 1
    ensures var d, e := Follow(n, d0, found, 3 * n + 12), Follow(n, d0, found, 5 * n + 15);
            && d.pc == PutIds(0)
            && (d.bid == 0 <==> exists u :: 0 <= u < 3 * n + 11 && Reason(n, d0.prev, found, u))
            && (e.pc.Exit? <==> forall u :: 0 <= u < 5 * n + 15 ==> !Reason(n, d0.prev, found, u))
            && (!e.pc.Exit? ==>
                  && e.pc.Wait? && e.iter == d0.iter + 1 && |e.prev| == n
                  && forall j :: 0 <= j < n ==> e.prev[j] == RefRead(found, j))
  {
    hide Follow, Snaps, Flagged, Reason, NextDet;
    Followed(n, d0, found, 3 * n + 12);
    AdvertisesAt(n, d0, found, Follow(n, d0, found, 3 * n + 12));
    Followed(n, d0, found, 5 * n + 14);
    LastStep(n, d0, found, Follow(n, d0, found, 5 * n + 14));
    FollowLast(n, d0, found);
  }

  lemma FollowLast(n: nat, d0: Det, found: seq<Found>)
    requires Shaped(n, found) && Ranged(n, d0) && d0.pc.Wait? && |found| == 5 * n + 15
    requires !Follow(n, d0, found, 5 * n + 14).pc.Exit?
    ensures var f := found[5 * n + 14];
            Follow(n, d0, found, 5 * n + 15) == NextDet(n, Follow(n, d0, found, 5 * n + 14), f.me, f.refs, f.ids)
  {
    hide NextDet;
  }

  lemma AdvertisesAt(n: nat, d0: Det, found: seq<Found>, d: Det)
    requires Shaped(n, found) && Ranged(n, d0) && d0.pc.Wait? && |found| == 5 * n + 15
    requires Snaps(n, d0, found, 3 * n + 12, d) && Flagged(n, d0, found, 3 * n + 12, d)
    ensures d.pc == PutIds(0)
    ensures d.bid == 0 <==> exists u :: 0 <= u < 3 * n + 11 && Reason(n, d0.prev, found, u)
  {
    hide Reason;
  }

  lemma LastStep(n: nat, d0: Det, found: seq<Found>, d: Det)
    requires Shaped(n, found) && Ranged(n, d0) && d0.pc.Wait? && |found| == 5 * n + 15
    requires Snaps(n, d0, found, 5 * n + 14, d) && Flagged(n, d0, found, 5 * n + 14, d)
    ensures d.pc == ReadIds(n)
    ensures var f := found[5 * n + 14];
            var e := NextDet(n, d, f.me, f.refs, f.ids);
            && (e.pc.Exit? <==> forall u :: 0 <= u < 5 * n + 15 ==> !Reason(n, d0.prev, found, u))
            && (!e.pc.Exit? ==>
                  && e.pc.Wait? && e.iter == d0.iter + 1 && |e.prev| == n
                  && forall j :: 0 <= j < n ==> e.prev[j] == RefRead(found, j))
  {
    LastHasNone(n, d0.prev, found);
    hide Reason;
    ReasonNext(n, d0.prev, found, 5 * n + 14);
    assert d.pc == ReadIds(n);
  }

  lemma LastHasNone(n: nat, prev: seq<nat>, found: seq<Found>)
    requires Shaped(n, found) && |prev| == n && |found| == 5 * n + 15
    ensures !Reason(n, prev, found, 5 * n + 14)
  {
  }
}
