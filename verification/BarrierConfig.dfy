/** The shape of the n-way dissemination barrier: how many rounds a team of a given
    size runs, and which peers a PE talks to in each of them. */
module BarrierConfig {
  import opened Arith

  function Pow(b: nat, e: nat): nat {
    if e == 0 then 1 else b * Pow(b, e - 1)
  }

  lemma {:induction false} PowPositive(b: nat, e: nat)
    requires b >= 1
    ensures Pow(b, e) >= 1
  {
    if e > 0 {
      PowPositive(b, e - 1);
      assert b * Pow(b, e - 1) >= 1 * 1;
    }
  }

  lemma {:induction false} PowMonotone(b: nat, d: nat, e: nat)
    requires b >= 1 && d <= e
    ensures Pow(b, d) <= Pow(b, e)
    decreases e - d
  {
    if d < e {
      PowMonotone(b, d, e - 1);
      PowPositive(b, e - 1);
      assert b * Pow(b, e - 1) >= 1 * Pow(b, e - 1);
    }
  }

  lemma {:induction false} PowBaseMonotone(a: nat, b: nat, e: nat)
    requires a <= b
    ensures Pow(a, e) <= Pow(b, e)
  {
    if e > 0 {
      PowBaseMonotone(a, b, e - 1);
      MulMonotone(a, b, Pow(a, e - 1), Pow(b, e - 1));
    }
  }

  lemma {:induction false} PowExceeds(b: nat, e: nat)
    requires b >= 2
    ensures Pow(b, e) > e
  {
    if e > 0 {
      PowExceeds(b, e - 1);
      assert b * Pow(b, e - 1) >= 2 * Pow(b, e - 1);
    }
  }

  /** The least `r' >= r` with `b^r' >= x`; with `r == 0`, the ceiling of log_b(x). */
  function CeilLogFrom(b: nat, x: nat, r: nat): (k: nat)
    requires b >= 2
    ensures r <= k && Pow(b, k) >= x
    ensures forall j :: r <= j < k ==> Pow(b, j) < x
    decreases if x > r then x - r else 0
  {
    PowExceeds(b, r);
    if Pow(b, r) >= x then r else CeilLogFrom(b, x, r + 1)
  }

  /** The largest `k >= r` with `2^k <= x`; with `r == 0`, the floor of log_2(x). */
  function FloorLog2From(x: nat, r: nat): (k: nat)
    requires Pow(2, r) <= x
    ensures r <= k && Pow(2, k) <= x < Pow(2, k + 1)
    decreases x - r
  {
    PowExceeds(2, r);
    if x < Pow(2, r + 1) then r else FloorLog2From(x, r + 1)
  }

  /** `n` is the dissemination factor actually used, `rounds` the number of rounds. */
  datatype Config = Config(numPes: nat, n: nat, rounds: nat)

  predicate ValidConfig(c: Config) {
    c.numPes >= 1 && c.n >= 1
  }

  /** The choice made when a barrier is built from the requested factor. */
  function NewConfig(numPes: nat, factor: nat): (c: Config)
    requires numPes >= 1
    ensures ValidConfig(c) && c.numPes == numPes
    ensures factor > 1 && numPes > 2 ==>
              && c.n == factor && Pow(factor, c.rounds) >= numPes
              && forall k :: 0 <= k < c.rounds ==> Pow(factor, k) < numPes
    ensures !(factor > 1 && numPes > 2) ==> c.n == 1 && Pow(2, c.rounds) <= numPes < Pow(2, c.rounds + 1)
  {
    if factor > 1 && numPes > 2 then
      Config(numPes, factor, CeilLogFrom(factor, numPes, 0))
    else
      Config(numPes, 1, FloorLog2From(numPes, 0))
  }

  /** Every PE is within reach of `rounds` rounds of dissemination. */
  predicate Covers(c: Config) {
    Pow(c.n + 1, c.rounds) >= c.numPes
  }

  predicate IsPowerOfTwo(x: nat) {
    x == Pow(2, if x >= 1 then FloorLog2From(x, 0) else 0)
  }

  lemma {:induction false} PowerOfTwoIsPower(x: nat, k: nat)
    requires x == Pow(2, k)
    ensures x >= 1 && IsPowerOfTwo(x)
  {
    PowPositive(2, k);
    var f := FloorLog2From(x, 0);
    if f < k {
      PowMonotone(2, f + 1, k);
    } else if k < f {
      PowMonotone(2, k + 1, f);
    }
  }

  /** Exactly when the configuration built by the constructor reaches everybody. */
  lemma NewConfigCoversIff(numPes: nat, factor: nat)
    requires numPes >= 1
    ensures Covers(NewConfig(numPes, factor)) <==>
            (factor > 1 && numPes > 2) || IsPowerOfTwo(numPes)
  {
    if factor > 1 && numPes > 2 {
      PowBaseMonotone(factor, factor + 1, CeilLogFrom(factor, numPes, 0));
    }
  }

  /** The PE `d` places before `p` on the ring of `m` PEs. */
  function Back(p: int, d: int, m: nat): (q: nat)
    requires m >= 1
    ensures q < m
  {
    (p - d) % m
  }

  lemma BackBack(p: int, a: int, b: int, m: nat)
    requires m >= 1
    ensures Back(Back(p, a, m), b, m) == Back(p, a + b, m)
  {
    var x := p - a;
    assert x == (x / m) * m + x % m;
    ModShift(x % m - b, x / m, m);
    assert x % m - b + (x / m) * m == p - (a + b);
  }

  lemma BackZero(p: nat, m: nat)
    requires p < m
    ensures Back(p, 0, m) == p
  {
    DivModUnique(p, 0, p, m);
  }

  /** Going back `a` places lands on the starting PE again only for multiples of `m`. */
  lemma BackDistinct(p: nat, a: nat, m: nat)
    requires p < m && 0 < a < m
    ensures Back(p, a, m) != p
  {
    if p >= a {
      DivModUnique(p - a, 0, p - a, m);
    } else {
      DivModUnique(p - a, -1, p - a + m, m);
    }
  }

  /** The team index a PE puts to, and the one it waits for, in `round` with offset `i`. */
  function Target(c: Config, p: nat, i: nat, r: nat): (q: nat)
    requires ValidConfig(c)
    ensures q < c.numPes
  {
    (p + i * Pow(c.n + 1, r)) % c.numPes
  }

  function Source(c: Config, q: nat, i: nat, r: nat): (p: nat)
    requires ValidConfig(c)
    ensures p < c.numPes
  {
    Back(q, i * Pow(c.n + 1, r), c.numPes)
  }

  /** A slot `(i, r)` of PE `q` has exactly one possible writer. */
  lemma SlotHasOneWriter(c: Config, p: nat, q: nat, i: nat, r: nat)
    requires ValidConfig(c) && p < c.numPes && q < c.numPes
    ensures Target(c, p, i, r) == q <==> p == Source(c, q, i, r)
  {
    var d := i * Pow(c.n + 1, r);
    var m := c.numPes;
    assert Target(c, p, i, r) == Back(p, -d, m);
    BackBack(p, -d, d, m);
    BackZero(p, m);
    BackBack(q, d, -d, m);
    BackZero(q, m);
  }
}
