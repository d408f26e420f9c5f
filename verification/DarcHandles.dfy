/** The counters of every PE against the history of the run: how many handles exist, were
    received and were sent is counted from the steps alone. */
module DarcHandles {
  import opened Options
  import opened Sums
  import opened DarcCounts

  /** A step that gives PE `p` one more handle. */
  function Gains(p: nat): Step -> nat {
    (t: Step) => if (t.Clone? && t.p == p) || (t.Deserialize? && t.dst == p) then 1 else 0
  }

  /** A step that takes a handle from PE `p`. */
  function Losses(p: nat): Step -> nat {
    (t: Step) => if t.Drop? && t.p == p then 1 else 0
  }

  /** Handles PE `p` serializes. */
  function Sends(p: nat): Step -> nat {
    (t: Step) => if t.Serialize? && t.p == p then |t.dsts| else 0
  }

  /** Handles PE `p` serializes for PE `q`. */
  function SendsTo(p: nat, q: nat): Step -> nat {
    (t: Step) => if t.Serialize? && t.p == p then multiset(t.dsts)[q] else 0
  }

  /** Handles of PE `p` that arrive at PE `q`. */
  function Arrivals(p: nat, q: nat): Step -> nat {
    (t: Step) => if t.Deserialize? && t.src == p && t.dst == q then 1 else 0
  }

  /** The handles in the hands of PE `p`: the one it began with, those it got, less those it
      dropped. */
  function Handles(steps: seq<Step>, p: nat): int {
    1 + Tally(steps, Gains(p)) - Tally(steps, Losses(p))
  }

  /** The local counters of a PE are what the steps say. */
  ghost predicate LocalExact(s: Team, steps: seq<Step>, p: nat)
    requires Wf(s) && p < |s.pes|
  {
    && s.pes[p].local == Handles(steps, p)
    && s.pes[p].totalLocal == 1 + Tally(steps, Gains(p))
    && s.pes[p].totalDist == Tally(steps, Sends(p))
  }

  ghost predicate TrafficExact(s: Team, steps: seq<Step>, p: nat, q: nat)
    requires Wf(s) && p < |s.pes| && q < |s.pes|
  {
    && s.pes[q].totalRef[p] == Tally(steps, Arrivals(p, q))
    && s.flight[p][q] == Tally(steps, SendsTo(p, q)) - Tally(steps, Arrivals(p, q))
  }

  lemma {:induction false} AddressedAt(row: seq<nat>, dsts: seq<nat>, q: nat)
    requires q < |row|
    ensures Addressed(row, dsts)[q] == row[q] + multiset(dsts)[q]
  {
    if dsts != [] {
      AddressedAt(row, dsts[1..], q);
      assert dsts == [dsts[0]] + dsts[1..];
    }
  }

  lemma StepLocal(s: Team, t: Step, p: nat)
    requires Wf(s) && Enabled(s, t) && p < |s.pes|
    ensures var d, d' := s.pes[p], Apply(s, t).pes[p];
            && d'.local == d.local + Gains(p)(t) - Losses(p)(t)
            && d'.totalLocal == d.totalLocal + Gains(p)(t)
            && d'.totalDist == d.totalDist + Sends(p)(t)
  {
  }

  lemma StepTraffic(s: Team, t: Step, p: nat, q: nat)
    requires Wf(s) && Enabled(s, t) && p < |s.pes| && q < |s.pes|
    ensures var s' := Apply(s, t);
            && s'.pes[q].totalRef[p] == s.pes[q].totalRef[p] + Arrivals(p, q)(t)
            && s'.flight[p][q] == s.flight[p][q] + SendsTo(p, q)(t) - Arrivals(p, q)(t)
  {
    if t.Serialize? && t.p == p { AddressedAt(s.flight[p], t.dsts, q); }
  }

  /** In every run the local count of a PE is the number of handles it has, and its monotone
      counts are the handles it ever got and ever sent. */
  lemma {:induction false} LocalCountsHandles(n: nat, steps: seq<Step>, p: nat)
    requires Run(n, steps).Some? && p < n
    ensures |Run(n, steps).value.pes| == n && LocalExact(Run(n, steps).value, steps, p)
    decreases |steps|
  {
    if steps != [] {
      var init := steps[..|steps| - 1];
      LocalCountsHandles(n, init, p);
      hide Apply, Enabled;
      StepLocal(Run(n, init).value, steps[|steps| - 1], p);
    }
  }

  /** In every run what is in flight between two PEs is what one sent less what the other
      received, and the received handles are all counted for their sender. */
  lemma {:induction false} TrafficIsCounted(n: nat, steps: seq<Step>, p: nat, q: nat)
    requires Run(n, steps).Some? && p < n && q < n
    ensures |Run(n, steps).value.pes| == n && TrafficExact(Run(n, steps).value, steps, p, q)
    decreases |steps|
  {
    if steps != [] {
      var init := steps[..|steps| - 1];
      TrafficIsCounted(n, init, p, q);
      hide Apply, Enabled;
      StepTraffic(Run(n, init).value, steps[|steps| - 1], p, q);
    }
  }

  /** A PE can drop a handle exactly when it has one. The drop of its last one acknowledges
      everything it received and did not acknowledge; no other drop acknowledges anything. */
  lemma LastDropAcknowledges(n: nat, steps: seq<Step>, p: nat)
    requires Run(n, steps).Some? && p < n
    ensures var s := Run(n, steps).value;
            && |s.pes| == n
            && (Enabled(s, Drop(p)) <==> Handles(steps, p) >= 1)
            && (Handles(steps, p) == 1 ==>
                  && Apply(s, Drop(p)).pes[p].ref == Zeroes(n)
                  && forall q :: 0 <= q < n ==>
                       Sum(Apply(s, Drop(p)).acks[q]) == Sum(s.acks[q]) + s.pes[p].ref[q])
            && (Handles(steps, p) > 1 ==>
                  Apply(s, Drop(p)).acks == s.acks && Apply(s, Drop(p)).pes[p].ref == s.pes[p].ref)
  {
    LocalCountsHandles(n, steps, p);
    var s := Run(n, steps).value;
    if Handles(steps, p) == 1 {
      forall q | 0 <= q < n ensures Sum(Apply(s, Drop(p)).acks[q]) == Sum(s.acks[q]) + s.pes[p].ref[q] {
        AcknowledgedSum(s.acks, s.pes[p].ref, q);
      }
    }
  }
}
