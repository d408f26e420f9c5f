/** Looking up the result of one message of a group by the number under which it was added. */
module AmGroupResults {
  import opened Options
  import opened AmGroupQueues

  /** What one batch of requests returned: from one member or from all of them, a unit value
      for the whole batch or a value per message. */
  datatype BatchResult<T> =
    | SinglePeUnit(unit: T)
    | SinglePeVal(vals: seq<T>)
    | AllPeUnit(units: seq<T>)
    | AllPeVal(table: seq<seq<T>>)

  datatype Batch<T> = Batch(pe: nat, ids: seq<nat>, reqs: BatchResult<T>)

  /** The first four stand for the ways a lookup can panic: the bounds check, a batch of the
      wrong kind, a result vector that is too short, and the end of the search. */
  datatype Lookup<T> =
    | OutOfBounds
    | WrongKind
    | TooShort
    | NotFound
    | FromPe(pe: nat, val: T)
    | FromAll(vals: seq<T>)

  /** Binary search between `lo` and `hi`. */
  function BinarySearch(ids: seq<nat>, x: nat, lo: nat, hi: nat): (r: Option<nat>)
    requires Increasing(ids) && lo <= hi <= |ids|
    ensures r.Some? ==> lo <= r.value < hi && ids[r.value] == x
    ensures r.None? ==> forall j :: lo <= j < hi ==> ids[j] != x
    decreases hi - lo
  {
    if lo == hi then None
    else
      var mid := (lo + hi) / 2;
      if ids[mid] == x then Some(mid)
      else if ids[mid] < x then BinarySearch(ids, x, mid + 1, hi)
      else BinarySearch(ids, x, lo, mid)
  }

  /** Batches that answer the messages sent to `dests`: the numbers of each batch increase and
      have its destination, and every number is in some batch. */
  ghost predicate Answers<T>(batches: seq<Batch<T>>, dests: seq<nat>) {
    && (forall b :: b in batches ==> Increasing(b.ids))
    && (forall b, j :: b in batches && 0 <= j < |b.ids| ==> b.ids[j] < |dests| && dests[b.ids[j]] == b.pe)
    && (forall i :: 0 <= i < |dests| ==> Held(batches, i))
  }

  ghost predicate Held<T>(batches: seq<Batch<T>>, i: nat) {
    exists b :: b in batches && i in b.ids
  }

  ghost predicate HasDest<T>(batches: seq<Batch<T>>, pe: nat) {
    exists b :: b in batches && b.pe == pe
  }

  /** The queues of a group, in any order, give such batches. */
  lemma QueuesAnswer<T>(batches: seq<Batch<T>>, dests: seq<nat>)
    requires forall b :: b in batches ==> b.ids == Positions(dests, b.pe)
    requires forall i :: 0 <= i < |dests| ==> HasDest(batches, dests[i])
    ensures Answers(batches, dests)
  {
    forall b | b in batches
      ensures Increasing(b.ids) && forall j :: 0 <= j < |b.ids| ==> b.ids[j] < |dests| && dests[b.ids[j]] == b.pe
    {
      PositionsSpec(dests, b.pe);
      assert forall j :: 0 <= j < |b.ids| ==> b.ids[j] in b.ids;
    }
    forall i | 0 <= i < |dests| ensures Held(batches, i) {
      assert HasDest(batches, dests[i]);
      var b :| b in batches && b.pe == dests[i];
      PositionsSpec(dests, b.pe);
    }
  }

  /** Batches whose values are those of `f`, the result of a message on a member. */
  ghost predicate ValsFrom<T(!new)>(batches: seq<Batch<T>>, numPes: nat, f: (nat, nat) -> T) {
    forall b :: b in batches ==> BatchVals(b, numPes, f)
  }

  ghost predicate BatchVals<T(!new)>(b: Batch<T>, numPes: nat, f: (nat, nat) -> T) {
    if b.pe == numPes then
      && b.reqs.AllPeVal? && |b.reqs.table| == numPes
      && (forall p :: 0 <= p < numPes ==> |b.reqs.table[p]| == |b.ids|)
      && (forall p, j :: 0 <= p < numPes && 0 <= j < |b.ids| ==> b.reqs.table[p][j] == f(p, b.ids[j]))
    else
      && b.reqs.SinglePeVal? && |b.reqs.vals| == |b.ids|
      && forall j :: 0 <= j < |b.ids| ==> b.reqs.vals[j] == f(b.pe, b.ids[j])
  }

  /** The results of message `i` on the members it was sent to. */
  ghost function Expected<T>(dests: seq<nat>, numPes: nat, f: (nat, nat) -> T, i: nat): Lookup<T> {
    if i >= |dests| then OutOfBounds
    else if dests[i] == numPes then FromAll(seq(numPes, p requires 0 <= p < numPes => f(p, i)))
    else FromPe(dests[i], f(dests[i], i))
  }

  /** What the iterator over all members yields for column `idx`. */
  method Column<T>(table: seq<seq<T>>, idx: nat, numPes: nat) returns (r: Lookup<T>)
    ensures (r.TooShort? <==> !(numPes <= |table| && forall p :: 0 <= p < numPes ==> idx < |table[p]|))
    ensures !r.TooShort? ==> r.FromAll? && |r.vals| == numPes
    ensures !r.TooShort? ==> forall p :: 0 <= p < numPes ==> r.vals[p] == table[p][idx]
  {
    var vals: seq<T> := [];
    if numPes > |table| {
      return TooShort;
    }
    for p := 0 to numPes
      invariant |vals| == p && forall q :: 0 <= q < p ==> idx < |table[q]| && vals[q] == table[q][idx]
    {
      if idx >= |table[p]| {
        return TooShort;
      }
      vals := vals + [table[p][idx]];
    }
    return FromAll(vals);
  }

  /** The search both lookups share: the batch that holds a number, and where. */
  method Find<T>(batches: seq<Batch<T>>, index: nat) returns (r: Option<(nat, nat)>)
    requires forall b :: b in batches ==> Increasing(b.ids)
    ensures r.Some? ==> r.value.0 < |batches| && r.value.1 < |batches[r.value.0].ids|
                        && batches[r.value.0].ids[r.value.1] == index
    ensures r.None? ==> !Held(batches, index)
  {
    for k := 0 to |batches|
      invariant forall l :: 0 <= l < k ==> index !in batches[l].ids
    {
      var req := batches[k];
      assert req in batches;
      var at := BinarySearch(req.ids, index, 0, |req.ids|);
      if at.Some? {
        return Some((k, at.value));
      }
    }
    return None;
  }

  /** The lookup returns the result of the message added as number `index`, wherever its batch
      put it, and never comes to the end of the search. */
  method AtVal<T(!new)>(batches: seq<Batch<T>>, cnt: nat, numPes: nat, index: nat,
                        ghost dests: seq<nat>, ghost f: (nat, nat) -> T)
    returns (r: Lookup<T>)
    requires Answers(batches, dests) && cnt == |dests| && ValsFrom(batches, numPes, f)
    ensures r == Expected(dests, numPes, f, index)
  {
    if index >= cnt {
      return OutOfBounds;
    }
    var at := Find(batches, index);
    if at.None? {
      return NotFound;
    }
    var req, idx := batches[at.value.0], at.value.1;
    assert req in batches;
    assert BatchVals(req, numPes, f);
    match req.reqs {
      case SinglePeVal(res) => r := FromPe(req.pe, res[idx]);
      case AllPeVal(res) => r := Column(res, idx, numPes);
      case _ => r := WrongKind;
    }
  }

  /** Batches whose unit values are those of `f`, the result of a batch on a member. */
  ghost predicate UnitsFrom<T(!new)>(batches: seq<Batch<T>>, numPes: nat, f: nat -> T) {
    forall b :: b in batches ==> BatchUnits(b, numPes, f)
  }

  ghost predicate BatchUnits<T(!new)>(b: Batch<T>, numPes: nat, f: nat -> T) {
    if b.pe == numPes then
      && b.reqs.AllPeUnit? && |b.reqs.units| == numPes
      && forall p :: 0 <= p < numPes ==> b.reqs.units[p] == f(p)
    else
      b.reqs.SinglePeUnit? && b.reqs.unit == f(b.pe)
  }

  method AtUnit<T(!new)>(batches: seq<Batch<T>>, cnt: nat, numPes: nat, index: nat,
                         ghost dests: seq<nat>, ghost f: nat -> T)
    returns (r: Lookup<T>)
    requires Answers(batches, dests) && cnt == |dests| && UnitsFrom(batches, numPes, f)
    ensures r == Expected(dests, numPes, (p, i) => f(p), index)
  {
    if index >= cnt {
      return OutOfBounds;
    }
    var at := Find(batches, index);
    if at.None? {
      return NotFound;
    }
    var req := batches[at.value.0];
    assert req in batches;
    assert BatchUnits(req, numPes, f);
    match req.reqs {
      case SinglePeUnit(res) => r := FromPe(req.pe, res);
      case AllPeUnit(res) => r := FromAll(res[..numPes]);
      case _ => r := WrongKind;
    }
  }
}
