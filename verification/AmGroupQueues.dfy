/** The queues of a message group, one per destination, and how a group is executed. */
module AmGroupQueues {
  import opened Sums
  import opened AmGroupSplit

  /** The messages queued for one destination: the numbers under which they were added, the
      messages not yet sent, and the size of everything ever added. */
  datatype Queue<Am> = Queue(ids: seq<nat>, ams: seq<Am>, size: nat)

  /** The message numbers whose destination is `k`, in order. */
  function Positions(dests: seq<nat>, k: nat): seq<nat> {
    if dests == [] then []
    else
      var n := |dests| - 1;
      Positions(dests[..n], k) + if dests[n] == k then [n] else []
  }

  predicate Increasing(ids: seq<nat>) {
    forall i, j :: 0 <= i < j < |ids| ==> ids[i] < ids[j]
  }

  lemma {:induction false} PositionsIncrease(dests: seq<nat>, k: nat)
    ensures Increasing(Positions(dests, k))
    ensures forall j :: 0 <= j < |Positions(dests, k)| ==> Positions(dests, k)[j] < |dests|
  {
    if dests != [] {
      PositionsIncrease(dests[..|dests| - 1], k);
    }
  }

  lemma {:induction false} PositionsHold(dests: seq<nat>, k: nat, i: nat)
    ensures i in Positions(dests, k) <==> i < |dests| && dests[i] == k
  {
    if dests != [] {
      PositionsHold(dests[..|dests| - 1], k, i);
    }
  }

  /** A destination's numbers increase, and are those of the messages sent to it. */
  lemma PositionsSpec(dests: seq<nat>, k: nat)
    ensures Increasing(Positions(dests, k))
    ensures forall i: nat :: i in Positions(dests, k) <==> i < |dests| && dests[i] == k
  {
    hide Positions, Increasing;
    PositionsIncrease(dests, k);
    forall i: nat ensures i in Positions(dests, k) <==> i < |dests| && dests[i] == k {
      PositionsHold(dests, k, i);
    }
  }

  /** Every number below `|dests|` stands in exactly one queue, at exactly one place. */
  lemma QueuesPartition(dests: seq<nat>, i: nat)
    requires i < |dests|
    ensures exists j :: 0 <= j < |Positions(dests, dests[i])| && Positions(dests, dests[i])[j] == i
    ensures forall k, j :: 0 <= j < |Positions(dests, k)| && Positions(dests, k)[j] == i ==> k == dests[i]
    ensures Increasing(Positions(dests, dests[i]))
  {
    PositionsSpec(dests, dests[i]);
    assert i in Positions(dests, dests[i]);
    forall k, j | 0 <= j < |Positions(dests, k)| && Positions(dests, k)[j] == i ensures k == dests[i] {
      PositionsSpec(dests, k);
      assert i in Positions(dests, k);
    }
  }

  function SizesOf<Am>(size: Am -> nat, ams: seq<Am>): (s: seq<nat>)
    ensures |s| == |ams|
  {
    seq(|ams|, i requires 0 <= i < |ams| => size(ams[i]))
  }

  lemma SizesAppend<Am>(size: Am -> nat, ams: seq<Am>, am: Am)
    ensures Sum(SizesOf(size, ams + [am])) == Sum(SizesOf(size, ams)) + size(am)
  {
    assert SizesOf(size, ams + [am]) == SizesOf(size, ams) + [size(am)];
    SumAppend(SizesOf(size, ams), size(am));
  }

  /** The bytes of all messages ever added for `k`. */
  function AddedSize<Am>(size: Am -> nat, dests: seq<nat>, added: seq<Am>, k: nat): nat
    requires |dests| == |added|
  {
    if dests == [] then 0
    else
      var n := |dests| - 1;
      AddedSize(size, dests[..n], added[..n], k) + if dests[n] == k then size(added[n]) else 0
  }

  lemma AddedOne<Am>(size: Am -> nat, dests: seq<nat>, added: seq<Am>, k: nat, k': nat, am: Am)
    requires |dests| == |added|
    ensures AddedSize(size, dests + [k'], added + [am], k)
         == AddedSize(size, dests, added, k) + if k' == k then size(am) else 0
  {
    assert (dests + [k'])[..|dests|] == dests && (added + [am])[..|added|] == added;
  }

  /** A queue agrees with the history of additions, of which the first `mark` were there at
      the last execution: its numbers are those added for `k`, its messages those of them
      added since, and its size that of all messages ever added for `k`. */
  ghost predicate QueueInv<Am>(q: Queue<Am>, k: nat, dests: seq<nat>, added: seq<Am>, mark: nat, size: Am -> nat)
    requires |dests| == |added|
  {
    && q.ids == Positions(dests, k)
    && |q.ams| <= |q.ids|
    && (forall j :: 0 <= j < |q.ids| ==> q.ids[j] < |added| && (q.ids[j] >= mark <==> j >= |q.ids| - |q.ams|))
    && (forall j :: 0 <= j < |q.ams| ==> q.ams[j] == added[q.ids[|q.ids| - |q.ams| + j]])
    && Sum(SizesOf(size, q.ams)) <= q.size == AddedSize(size, dests, added, k)
  }

  lemma QueueGrows<Am>(q: Queue<Am>, k: nat, dests: seq<nat>, added: seq<Am>, mark: nat, size: Am -> nat, am: Am)
    requires |dests| == |added| && mark <= |added| && QueueInv(q, k, dests, added, mark, size)
    ensures QueueInv(Queue(q.ids + [|dests|], q.ams + [am], q.size + size(am)), k, dests + [k], added + [am], mark, size)
  {
    SizesAppend(size, q.ams, am);
    AddedOne(size, dests, added, k, k, am);
    hide AddedSize, SizesOf, Sum;
    assert (dests + [k])[..|dests|] == dests;
  }

  lemma QueueStays<Am>(q: Queue<Am>, k: nat, dests: seq<nat>, added: seq<Am>, mark: nat, size: Am -> nat, am: Am, k': nat)
    requires |dests| == |added| && QueueInv(q, k, dests, added, mark, size) && k != k'
    ensures QueueInv(q, k, dests + [k'], added + [am], mark, size)
  {
    AddedOne(size, dests, added, k, k', am);
    hide AddedSize, SizesOf, Sum;
    assert (dests + [k'])[..|dests|] == dests;
  }

  lemma {:induction false} NoPositions(dests: seq<nat>, k: nat)
    requires k !in dests
    ensures Positions(dests, k) == []
  {
    if dests != [] {
      NoPositions(dests[..|dests| - 1], k);
    }
  }

  lemma QueueStarts<Am>(k: nat, dests: seq<nat>, added: seq<Am>, mark: nat, size: Am -> nat)
    requires |dests| == |added| && k !in dests
    ensures QueueInv(Queue([], [], 0), k, dests, added, mark, size)
  {
    NoPositions(dests, k);
    NoneAdded(size, dests, added, k);
  }

  lemma {:induction false} NoneAdded<Am>(size: Am -> nat, dests: seq<nat>, added: seq<Am>, k: nat)
    requires |dests| == |added| && k !in dests
    ensures AddedSize(size, dests, added, k) == 0
  {
    if dests != [] {
      NoneAdded(size, dests[..|dests| - 1], added[..|dests| - 1], k);
    }
  }

  /** The requests sent for a queue carry its messages, each once and in order, except for a
      tail of messages without size where `NothingLost` fails. */
  ghost predicate SentOk<Am>(q: Queue<Am>, rs: seq<Range>, size: Am -> nat) {
    && (forall j :: 0 <= j < |rs| ==> rs[j].si <= rs[j].ei <= |q.ams|)
    && Reach(rs) <= |q.ams|
    && Carried(q.ams, rs) == q.ams[..Reach(rs)]
    && (forall j :: Reach(rs) <= j < |q.ams| ==> size(q.ams[j]) == 0)
    && (Reach(rs) == |q.ams| <==> q.size <= Target || NothingLost(SizesOf(size, q.ams), q.size))
    && |rs| <= q.size / Target + 1
    && (q.size > Target ==> Cut(SizesOf(size, q.ams), q.size / (q.size / Target + 1), rs))
    && (forall j :: 0 <= j < |rs| ==> Load(SizesOf(size, q.ams), rs[j]) < Limit)
  }

  /** Cuts one queue into requests. */
  method SendQueue<Am>(q: Queue<Am>, size: Am -> nat) returns (rs: seq<Range>)
    requires Sum(SizesOf(size, q.ams)) <= q.size
    requires q.size > Target ==> AllBelowLimit(SizesOf(size, q.ams))
    ensures SentOk(q, rs, size)
  {
    var sizes := SizesOf(size, q.ams);
    hide SizesOf, NothingLost, Sum, Cut;
    rs := Split(sizes, q.size);
    if q.size > Target {
      ChainCarries(q.ams, rs);
    } else {
      OneRequest(q.ams);
      assert sizes[0..|sizes|] == sizes;
    }
    forall j | Reach(rs) <= j < |q.ams| ensures size(q.ams[j]) == 0 {
      SizeAt(size, q.ams, j);
    }
  }

  lemma SizeAt<Am>(size: Am -> nat, ams: seq<Am>, j: nat)
    requires j < |ams|
    ensures SizesOf(size, ams)[j] == size(ams[j])
  {
  }

  lemma OneRequest<Am>(ams: seq<Am>)
    ensures Carried(ams, [Range(0, |ams|)]) == ams
  {
    assert Carried(ams, [Range(0, |ams|)][..0]) == [];
  }

  class AmGroup<Am> {
    const numPes: nat
    const size: Am -> nat
    var cnt: nat
    var reqs: map<nat, Queue<Am>>
    ghost var dests: seq<nat>
    ghost var added: seq<Am>
    ghost var mark: nat

    ghost predicate Valid()
      reads this
    {
      && cnt == |dests| == |added| && mark <= cnt
      && (forall k :: k in reqs <==> k in dests)
      && (forall k :: k in reqs ==> QueueInv(reqs[k], k, dests, added, mark, size))
    }

    constructor (numPes: nat, size: Am -> nat)
      ensures Valid() && dests == [] && added == [] && this.numPes == numPes && this.size == size
    {
      this.numPes, this.size := numPes, size;
      cnt, reqs := 0, map[];
      dests, added, mark := [], [], 0;
    }

    /** A message for all members goes into the queue numbered one past the last member. */
    method AddAmAll(am: Am)
      requires Valid()
      modifies this
      ensures Valid() && mark == old(mark)
      ensures dests == old(dests) + [numPes] && added == old(added) + [am]
    {
      AddTo(numPes, am);
    }

    method AddAmPe(pe: nat, am: Am)
      requires Valid()
      modifies this
      ensures Valid() && mark == old(mark)
      ensures dests == old(dests) + [pe] && added == old(added) + [am]
    {
      AddTo(pe, am);
    }

    method AddTo(k: nat, am: Am)
      requires Valid()
      modifies this
      ensures Valid() && mark == old(mark)
      ensures dests == old(dests) + [k] && added == old(added) + [am]
    {
      hide QueueInv;
      ghost var before := reqs;
      if k !in reqs {
        reqs := reqs[k := Queue([], [], 0)];
        QueueStarts(k, dests, added, mark, size);
      }
      var q := reqs[k];
      QueueGrows(q, k, dests, added, mark, size, am);
      forall l | l in before && l != k ensures QueueInv(before[l], l, dests + [k], added + [am], mark, size) {
        QueueStays(before[l], l, dests, added, mark, size, am, k);
      }
      reqs := reqs[k := Queue(q.ids + [cnt], q.ams + [am], q.size + size(am))];
      cnt := cnt + 1;
      dests, added := dests + [k], added + [am];
    }

    /** Sends what was added since the last execution: every queue's messages leave in its
        requests, and the queues keep their numbers and sizes. The loop behind a queue whose
        size exceeds the target ends only if all its messages are below the limit. */
    method Exec() returns (sent: map<nat, seq<Range>>)
      requires Valid()
      requires forall k :: k in reqs && reqs[k].size > Target ==> AllBelowLimit(SizesOf(size, reqs[k].ams))
      modifies this
      ensures Valid() && dests == old(dests) && added == old(added) && mark == |added|
      ensures sent.Keys == old(reqs).Keys == reqs.Keys
      ensures forall k :: k in sent ==> SentOk(old(reqs)[k], sent[k], size)
      ensures forall k :: k in reqs ==> reqs[k] == Queue(old(reqs)[k].ids, [], old(reqs)[k].size)
    {
      hide SentOk, AllBelowLimit, Positions, SizesOf, QueueInv, Sum;
      sent := map[];
      var todo := reqs.Keys;
      ghost var before := reqs;
      while todo != {}
        invariant todo <= reqs.Keys == before.Keys && sent.Keys == reqs.Keys - todo
        invariant dests == old(dests) && added == old(added) && cnt == old(cnt) && mark == old(mark)
        invariant forall k :: k in before ==> QueueInv(before[k], k, dests, added, mark, size)
        invariant forall k :: k in todo ==> reqs[k] == before[k]
        invariant forall k :: k in sent ==> SentOk(before[k], sent[k], size)
        invariant forall k :: k in sent ==> reqs[k] == Queue(before[k].ids, [], before[k].size)
      {
        var pe :| pe in todo;
        var q := reqs[pe];
        assert QueueInv(q, pe, dests, added, mark, size);
        QueueCovered(q, pe, dests, added, mark, size);
        var rs := SendQueue(q, size);
        reqs := reqs[pe := q.(ams := [])];
        sent := sent[pe := rs];
        todo := todo - {pe};
      }
      forall k | k in reqs ensures QueueInv(reqs[k], k, dests, added, |added|, size) {
        QueueEmptied(before[k], k, dests, added, mark, size);
      }
      mark := |added|;
    }
  }

  lemma QueueCovered<Am>(q: Queue<Am>, k: nat, dests: seq<nat>, added: seq<Am>, mark: nat, size: Am -> nat)
    requires |dests| == |added| && QueueInv(q, k, dests, added, mark, size)
    ensures Sum(SizesOf(size, q.ams)) <= q.size
  {
  }

  lemma QueueEmptied<Am>(q: Queue<Am>, k: nat, dests: seq<nat>, added: seq<Am>, mark: nat, size: Am -> nat)
    requires |dests| == |added| && QueueInv(q, k, dests, added, mark, size)
    ensures QueueInv(Queue(q.ids, [], q.size), k, dests, added, |added|, size)
  {
  }
}
