/** What one PE of the quiescence detector keeps true of its own variables, counters and
    slots at every step. */
module DarcQuiescenceLocal {
  import opened Sums
  import opened DarcCounts
  import opened DarcQuiescence

  predicate Begun(pc: Pc) {
    !pc.Start? && !pc.InInit?
  }

  /** Between the wait for local handles and the first barrier of an iteration. */
  predicate Gathering(pc: Pc) {
    pc.Sweep? || pc.ReadRefs? || pc.ReadLocal? || pc.ReadDist? || pc.PutRefs?
  }

  predicate Checking(pc: Pc) {
    pc.CheckLocal? || pc.CheckDist? || pc.CheckRefs? || pc.CheckSum?
  }

  /** From the third barrier of an iteration to its decision. */
  predicate Deciding(pc: Pc) {
    pc.InB3? || pc.ReadIds? || pc.Exit?
  }

  function Iter(d: Det): nat {
    if Begun(d.pc) then d.iter else 0
  }

  /** The place of a PE fixes how many barriers it has entered: one to begin with, then
      three in each iteration. */
  predicate Counted(d: Det) {
    if d.pc.Start? then d.entered == 0
    else if d.pc.InInit? then d.entered == 1
    else
      && d.iter >= 1
      && d.entered == 3 * d.iter + (if d.pc.Wait? || Gathering(d.pc) then -2
                                    else if d.pc.InB1? || Checking(d.pc) then -1
                                    else if d.pc.InB2? || d.pc.PutIds? then 0
                                    else 1)
  }

  /** The id about to be advertised is 0 exactly when outstanding references were seen. */
  predicate Bids(d: Det) {
    && (Gathering(d.pc) || d.pc.InB1? || d.pc.InB2? || d.pc.PutIds? || d.pc.InB3? ==>
          d.bid == if d.outstanding then 0 else d.iter)
    && (Checking(d.pc) || d.pc.ReadIds? || d.pc.Exit? ==>
          (d.bid == 0 || d.bid == d.iter) && (d.bid == 0 ==> d.outstanding))
    && (d.pc.Exit? ==> !d.outstanding)
  }

  /** A count that changed since the previous iteration has been flagged. */
  predicate Flags(n: nat, d: Det)
    requires Ranged(n, d)
  {
    && (d.pc.PutRefs? ==> forall j :: 0 <= j < d.pc.i && d.prev[j] != d.snap[j] ==> d.outstanding)
    && (d.pc.InB1? || Checking(d.pc) ==> forall j :: 0 <= j < n && d.prev[j] != d.snap[j] ==> d.outstanding)
  }

  /** Snapshots lag behind the counters they were taken from. */
  predicate Lags(n: nat, d: Det, me: Inner)
    requires Ranged(n, d) && |me.totalRef| == n
  {
    && (Begun(d.pc) ==> forall j :: 0 <= j < n ==> d.prev[j] <= me.totalRef[j])
    && (Begun(d.pc) && !d.pc.Wait? && !d.pc.Sweep? ==>
          forall j :: 0 <= j < |d.snap| ==> d.prev[j] <= d.snap[j] <= me.totalRef[j])
    && (d.pc.PutRefs? || d.pc.InB1? || d.pc.CheckLocal? || d.pc.CheckDist? ==> d.snapDist <= me.totalDist)
  }

  /** What a slot this PE writes holds before the put of this iteration. */
  predicate OldSlot(n: nat, d: Det, me: Inner, v: nat, j: nat)
    requires Ranged(n, d) && |me.totalRef| == n && j < n && Begun(d.pc)
  {
    || v == d.prev[j]
    || (d.prev[j] == 0 &&
        v <= if !d.pc.Wait? && !d.pc.Sweep? && j < |d.snap| then d.snap[j] else me.totalRef[j])
  }

  predicate RefPosted(n: nat, d: Det, me: Inner, row: seq<nat>)
    requires Ranged(n, d) && |me.totalRef| == n && |row| == n
  {
    && (!Begun(d.pc) ==> forall j :: 0 <= j < n ==> row[j] <= me.totalRef[j])
    && (d.pc.Wait? || Gathering(d.pc) ==>
          forall j :: 0 <= j < n ==>
            if d.pc.PutRefs? && j < d.pc.i then row[j] == d.snap[j] else OldSlot(n, d, me, row[j], j))
    && (Begun(d.pc) && !d.pc.Wait? && !Gathering(d.pc) ==> row == d.snap)
  }

  predicate Dirty(n: nat, d: Det, me: Inner)
    requires Ranged(n, d) && |me.totalRef| == n && Begun(d.pc)
  {
    d.outstanding || exists j :: 0 <= j < n && d.prev[j] < me.totalRef[j]
  }

  /** A handle that turned up after the wait has left a trace in the counts. */
  predicate Traced(n: nat, limit: nat, own: nat, d: Det, me: Inner)
    requires Ranged(n, d) && |me.totalRef| == n
  {
    && me.local >= own
    && (own == limit && (Gathering(d.pc) || d.pc.InB1?) ==> me.local == own || Dirty(n, d, me))
  }

  /** The advertised ids: the same value on every PE except while it is being put. */
  predicate IdPosted(n: nat, d: Det, row: seq<nat>)
    requires Ranged(n, d) && |row| == n
  {
    && (d.pc.PutIds? ==> forall j :: 0 <= j < d.pc.i ==> row[j] == d.bid)
    && (Deciding(d.pc) ==> forall j :: 0 <= j < n ==> row[j] == d.bid)
    && (Begun(d.pc) && !d.pc.PutIds? && d.iter >= 2 ==>
          forall i, j :: 0 <= i < n && 0 <= j < n ==> row[i] == row[j])
  }

  predicate LocalInv(n: nat, limit: nat, own: nat, d: Det, me: Inner, refRow: seq<nat>, idRow: seq<nat>)
    requires |me.totalRef| == n && |refRow| == n && |idRow| == n
  {
    && Ranged(n, d) && Counted(d) && Bids(d) && Flags(n, d) && Lags(n, d, me)
    && RefPosted(n, d, me, refRow) && Traced(n, limit, own, d, me) && IdPosted(n, d, idRow)
  }

  function NextRefRow(n: nat, d: Det, row: seq<nat>): seq<nat>
    requires Ranged(n, d) && |row| == n
  {
    if d.pc.PutRefs? && d.pc.i < n && d.prev[d.pc.i] != d.snap[d.pc.i] then row[d.pc.i := d.snap[d.pc.i]] else row
  }

  function NextIdRow(n: nat, d: Det, row: seq<nat>): seq<nat>
    requires Ranged(n, d) && |row| == n
  {
    if d.pc.PutIds? && d.pc.i < n then row[d.pc.i := d.bid] else row
  }

  lemma NextCounted(n: nat, d: Det, me: Inner, refs: seq<nat>, ids: seq<nat>)
    requires Ranged(n, d) && !d.pc.Exit? && |me.totalRef| == n && |refs| == n && |ids| == n
    requires Counted(d)
    ensures Counted(NextDet(n, d, me, refs, ids))
  {
  }

  lemma NextBid(n: nat, d: Det, me: Inner, refs: seq<nat>, ids: seq<nat>)
    requires Ranged(n, d) && !d.pc.Exit? && |me.totalRef| == n && |refs| == n && |ids| == n
    requires Counted(d) && Bids(d)
    ensures Bids(NextDet(n, d, me, refs, ids))
  {
  }

  lemma NextFlags(n: nat, d: Det, me: Inner, refs: seq<nat>, ids: seq<nat>)
    requires Ranged(n, d) && !d.pc.Exit? && |me.totalRef| == n && |refs| == n && |ids| == n
    requires Flags(n, d)
    ensures Flags(n, NextDet(n, d, me, refs, ids))
  {
  }

  lemma NextBids(n: nat, d: Det, me: Inner, refs: seq<nat>, ids: seq<nat>)
    requires Ranged(n, d) && !d.pc.Exit? && |me.totalRef| == n && |refs| == n && |ids| == n
    requires Counted(d) && Bids(d) && Flags(n, d)
    ensures var d' := NextDet(n, d, me, refs, ids);
            Counted(d') && Bids(d') && Flags(n, d')
  {
    hide NextDet, Counted, Bids, Flags;
    NextCounted(n, d, me, refs, ids);
    NextBid(n, d, me, refs, ids);
    NextFlags(n, d, me, refs, ids);
  }

  lemma NextLags(n: nat, d: Det, me: Inner, refs: seq<nat>, ids: seq<nat>)
    requires Ranged(n, d) && !d.pc.Exit? && |me.totalRef| == n && |refs| == n && |ids| == n
    requires Lags(n, d, me)
    ensures Lags(n, NextDet(n, d, me, refs, ids), me)
  {
  }

  lemma PutRefPosted(n: nat, d: Det, me: Inner, row: seq<nat>, refs: seq<nat>, ids: seq<nat>)
    requires Ranged(n, d) && d.pc.PutRefs? && |me.totalRef| == n && |row| == n && |refs| == n && |ids| == n
    requires Lags(n, d, me) && RefPosted(n, d, me, row)
    ensures RefPosted(n, NextDet(n, d, me, refs, ids), me, NextRefRow(n, d, row))
  {
  }

  lemma ReadRefPosted(n: nat, d: Det, me: Inner, row: seq<nat>, refs: seq<nat>, ids: seq<nat>)
    requires Ranged(n, d) && Gathering(d.pc) && !d.pc.PutRefs?
    requires |me.totalRef| == n && |row| == n && |refs| == n && |ids| == n
    requires Lags(n, d, me) && RefPosted(n, d, me, row)
    ensures RefPosted(n, NextDet(n, d, me, refs, ids), me, NextRefRow(n, d, row))
  {
  }

  lemma LaterRefPosted(n: nat, d: Det, me: Inner, row: seq<nat>, refs: seq<nat>, ids: seq<nat>)
    requires Ranged(n, d) && !d.pc.Exit? && !Gathering(d.pc)
    requires |me.totalRef| == n && |row| == n && |refs| == n && |ids| == n
    requires Lags(n, d, me) && Counted(d) && RefPosted(n, d, me, row)
    ensures RefPosted(n, NextDet(n, d, me, refs, ids), me, NextRefRow(n, d, row))
  {
  }

  lemma NextRefPosted(n: nat, d: Det, me: Inner, row: seq<nat>, refs: seq<nat>, ids: seq<nat>)
    requires Ranged(n, d) && !d.pc.Exit? && |me.totalRef| == n && |row| == n && |refs| == n && |ids| == n
    requires Lags(n, d, me) && Counted(d) && RefPosted(n, d, me, row)
    ensures RefPosted(n, NextDet(n, d, me, refs, ids), me, NextRefRow(n, d, row))
  {
    hide NextDet, RefPosted, Lags, Counted;
    if d.pc.PutRefs? {
      PutRefPosted(n, d, me, row, refs, ids);
    } else if Gathering(d.pc) {
      ReadRefPosted(n, d, me, row, refs, ids);
    } else {
      LaterRefPosted(n, d, me, row, refs, ids);
    }
  }

  lemma NextTraced(n: nat, limit: nat, own: nat, d: Det, me: Inner, refs: seq<nat>, ids: seq<nat>)
    requires Ranged(n, d) && !d.pc.Exit? && |me.totalRef| == n && |refs| == n && |ids| == n
    requires Traced(n, limit, own, d, me) && (d.pc.Wait? ==> me.local <= limit)
    ensures Traced(n, limit, own, NextDet(n, d, me, refs, ids), me)
  {
    var d' := NextDet(n, d, me, refs, ids);
    if own == limit && (Gathering(d'.pc) || d'.pc.InB1?) {
      if !d.pc.Wait? && me.local != own {
        assert Dirty(n, d, me);
      }
    }
  }

  lemma NextIdPosted(n: nat, d: Det, me: Inner, row: seq<nat>, refs: seq<nat>, ids: seq<nat>)
    requires Ranged(n, d) && !d.pc.Exit? && |me.totalRef| == n && |row| == n && |refs| == n && |ids| == n
    requires Counted(d) && IdPosted(n, d, row)
    ensures IdPosted(n, NextDet(n, d, me, refs, ids), NextIdRow(n, d, row))
  {
  }

  /** A PE's own step keeps all it keeps. */
  lemma NextLocalInv(n: nat, limit: nat, own: nat, d: Det, me: Inner, refRow: seq<nat>, idRow: seq<nat>, refs: seq<nat>, ids: seq<nat>)
    requires |me.totalRef| == n && |refRow| == n && |idRow| == n && |refs| == n && |ids| == n
    requires LocalInv(n, limit, own, d, me, refRow, idRow) && !d.pc.Exit? && (d.pc.Wait? ==> me.local <= limit)
    ensures LocalInv(n, limit, own, NextDet(n, d, me, refs, ids), me, NextRefRow(n, d, refRow), NextIdRow(n, d, idRow))
  {
    NextBids(n, d, me, refs, ids);
    NextLags(n, d, me, refs, ids);
    NextRefPosted(n, d, me, refRow, refs, ids);
    NextTraced(n, limit, own, d, me, refs, ids);
    NextIdPosted(n, d, me, idRow, refs, ids);
  }

  /** What the environment may do to the counters of a PE during its call. */
  predicate EnvEffect(n: nat, own: nat, d: Det, me: Inner, me': Inner)
    requires |me.totalRef| == n && |me'.totalRef| == n
  {
    && (forall j :: 0 <= j < n ==> me.totalRef[j] <= me'.totalRef[j])
    && me.totalDist <= me'.totalDist
    && me'.local >= own
    && (|| me'.local == me.local
        || d.pc.Start?
        || me.local > own
        || exists j :: 0 <= j < n && me.totalRef[j] < me'.totalRef[j])
  }

  lemma EnvLocalInv(n: nat, limit: nat, own: nat, d: Det, me: Inner, me': Inner, refRow: seq<nat>, idRow: seq<nat>)
    requires |me.totalRef| == n && |me'.totalRef| == n && |refRow| == n && |idRow| == n
    requires LocalInv(n, limit, own, d, me, refRow, idRow) && EnvEffect(n, own, d, me, me')
    ensures LocalInv(n, limit, own, d, me', refRow, idRow)
  {
    if own == limit && (Gathering(d.pc) || d.pc.InB1?) {
      if me'.local != own {
        if me.local != own {
          assert Dirty(n, d, me);
        } else {
          var j :| 0 <= j < n && me.totalRef[j] < me'.totalRef[j];
          assert d.prev[j] < me'.totalRef[j];
        }
        assert Dirty(n, d, me');
      }
    }
    assert RefPosted(n, d, me', refRow);
  }
}
