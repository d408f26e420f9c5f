/** The free map of the B-tree allocator: two redundant indexes over the free blocks, by
    address and by size, with the block operations on them and the merge pass. */
module FreeEntries {
  import opened Options
  import opened AllocLayout

  /** `addrs` maps an address to a size and a padding, `sizes` a size to the addresses of
      the free blocks of that size. */
  datatype FreeMap = FreeMap(sizes: map<nat, set<nat>>, addrs: Entries)

  /** Both indexes describe the same blocks, no size bucket is empty, and free blocks carry
      no padding. */
  ghost predicate Agree(f: FreeMap) {
    && (forall k :: k in f.sizes ==> f.sizes[k] != {})
    && (forall k, a :: k in f.sizes && a in f.sizes[k] ==> a in f.addrs && f.addrs[a].0 == k)
    && (forall a :: a in f.addrs ==> f.addrs[a].0 in f.sizes && a in f.sizes[f.addrs[a].0])
    && (forall a :: a in f.addrs ==> f.addrs[a].0 > 0 && f.addrs[a].1 == 0)
  }

  // ---------------------------------------------------------------- ordered access

  lemma {:induction false} LeastExists(s: set<nat>, m: nat)
    requires m in s
    ensures exists l :: l in s && forall x :: x in s ==> l <= x
    decreases m
  {
    if x :| x in s && x < m { LeastExists(s, x); }
  }

  lemma {:induction false} GreatestExists(s: set<nat>, m: nat, hi: nat)
    requires m in s && forall x :: x in s ==> x < hi
    ensures exists g :: g in s && forall x :: x in s ==> x <= g
    decreases hi - m
  {
    if x :| x in s && x > m { GreatestExists(s, x, hi); }
  }

  /** The first key of an ordered map. */
  function First(s: set<nat>): (m: nat)
    requires s != {}
    ensures m in s && forall x :: x in s ==> m <= x
  {
    assert exists l :: l in s && forall x :: x in s ==> l <= x by {
      var m :| m in s;
      LeastExists(s, m);
    }
    var m :| m in s && forall x :: x in s ==> m <= x;
    m
  }

  /** The first key that is not below `lo`. */
  function FirstFrom(s: set<nat>, lo: nat): (r: Option<nat>)
    ensures r.None? <==> forall x :: x in s ==> x < lo
    ensures r.Some? ==> r.value in s && r.value >= lo && forall x :: x in s && x >= lo ==> r.value <= x
  {
    var t := set x | x in s && x >= lo;
    assert forall x :: x in s && x >= lo ==> x in t;
    if t == {} then None else Some(First(t))
  }

  /** The last key below `hi`. */
  function LastBelow(s: set<nat>, hi: nat): (r: Option<nat>)
    ensures r.None? <==> forall x :: x in s ==> x >= hi
    ensures r.Some? ==> r.value in s && r.value < hi && forall x :: x in s && x < hi ==> x <= r.value
  {
    var t := set x | x in s && x < hi;
    assert forall x :: x in s && x < hi ==> x in t;
    if t == {} then None
    else
      assert exists g :: g in t && forall x :: x in t ==> x <= g by {
        var m :| m in t;
        GreatestExists(t, m, hi);
      }
      var g :| g in t && forall x :: x in t ==> x <= g;
      Some(g)
  }

  // ---------------------------------------------------------------- block operations

  function DropSize(sizes: map<nat, set<nat>>, a: nat, k: nat): map<nat, set<nat>> {
    if k !in sizes then sizes
    else if sizes[k] - {a} == {} then sizes - {k}
    else sizes[k := sizes[k] - {a}]
  }

  function AddSize(sizes: map<nat, set<nat>>, a: nat, k: nat): map<nat, set<nat>> {
    sizes[k := (if k in sizes then sizes[k] else {}) + {a}]
  }

  /** The free map without the block at `a`. */
  function Removed(f: FreeMap, a: nat): FreeMap
    requires a in f.addrs
  {
    FreeMap(DropSize(f.sizes, a, f.addrs[a].0), f.addrs - {a})
  }

  /** The free map with a block of `size` bytes at `a`. */
  function Inserted(f: FreeMap, a: nat, size: nat): FreeMap {
    FreeMap(AddSize(f.sizes, a, size), f.addrs[a := (size, 0)])
  }

  lemma RemovedAgree(f: FreeMap, a: nat)
    requires Agree(f) && a in f.addrs
    ensures Agree(Removed(f, a)) && Removed(f, a).addrs == f.addrs - {a}
  {
    var f' := Removed(f, a);
    var k0 := f.addrs[a].0;
    forall b | b in f'.addrs
      ensures f'.addrs[b].0 in f'.sizes && b in f'.sizes[f'.addrs[b].0]
    {
      if f.addrs[b].0 == k0 { assert b in f.sizes[k0] - {a}; }
    }
    forall k, b | k in f'.sizes && b in f'.sizes[k] ensures b in f'.addrs && f'.addrs[b].0 == k {
      assert k in f.sizes && b in f.sizes[k];
    }
  }

  lemma InsertedAgree(f: FreeMap, a: nat, size: nat)
    requires Agree(f) && a !in f.addrs && size > 0
    ensures Agree(Inserted(f, a, size)) && Inserted(f, a, size).addrs == f.addrs[a := (size, 0)]
  {
  }

  // ---------------------------------------------------------------- merging

  predicate Adjacent(f: FreeMap, a: nat, b: nat) {
    a in f.addrs && a + Full(f.addrs, a) == b
  }

  /** Two adjacent free blocks made one. */
  function Coalesced(f: FreeMap, a: nat, b: nat): FreeMap
    requires a in f.addrs && b in f.addrs && a != b
  {
    Inserted(Removed(Removed(f, b), a), a, f.addrs[a].0 + f.addrs[b].0)
  }

  lemma CoalescedAddrs(f: FreeMap, a: nat, b: nat)
    requires a in f.addrs && b in f.addrs && a != b
    ensures Coalesced(f, a, b).addrs == (f.addrs - {b})[a := (f.addrs[a].0 + f.addrs[b].0, 0)]
    ensures |Coalesced(f, a, b).addrs| == |f.addrs| - 1
    ensures Coalesced(f, a, b).addrs != map[]
  {
    var m := f.addrs - {b};
    var m' := Coalesced(f, a, b).addrs;
    assert m' == (m - {a})[a := (f.addrs[a].0 + f.addrs[b].0, 0)];
    assert a in m';
    assert m'.Keys == f.addrs.Keys - {b};
  }

  lemma CoalescedSizes(f: FreeMap, a: nat, b: nat)
    requires a in f.addrs && b in f.addrs && a != b
    ensures Coalesced(f, a, b).sizes
            == AddSize(DropSize(DropSize(f.sizes, b, f.addrs[b].0), a, f.addrs[a].0), a, f.addrs[a].0 + f.addrs[b].0)
  {
  }

  lemma NoPaddings(f: FreeMap, a: nat)
    requires Agree(f) && a in f.addrs
    ensures f.addrs[a].0 > 0 && f.addrs[a].1 == 0
  {
  }

  lemma CoalescedAgree(f: FreeMap, a: nat, b: nat)
    requires Agree(f) && a in f.addrs && b in f.addrs && a != b
    ensures Agree(Coalesced(f, a, b))
  {
    assert f.addrs[a].0 > 0;
    hide Agree, Removed, Inserted;
    RemovedAgree(f, b);
    var f1 := Removed(f, b);
    RemovedAgree(f1, a);
    var f2 := Removed(f1, a);
    InsertedAgree(f2, a, f.addrs[a].0 + f.addrs[b].0);
  }

  lemma KeysLeft(m: Entries, a: nat)
    requires |m| >= 2
    ensures m.Keys != {} && m.Keys - {a} != {}
  {
    assert |m| == |m.Keys|;
    if m.Keys - {a} == {} {
      assert m.Keys <= {a};
      CardinalityBound(m.Keys, {a});
    }
  }

  lemma {:induction false} CardinalityBound(s: set<nat>, t: set<nat>)
    requires s <= t
    ensures |s| <= |t|
    decreases |s|
  {
    if s != {} {
      var x :| x in s;
      CardinalityBound(s - {x}, t - {x});
    }
  }

  /** The two lowest addresses. */
  function Lowest(f: FreeMap): (r: (nat, nat))
    requires |f.addrs| >= 2
    ensures r.0 in f.addrs && r.1 in f.addrs && r.0 < r.1
    ensures forall x :: x in f.addrs && x != r.0 ==> r.1 <= x
  {
    KeysLeft(f.addrs, 0);
    var a := First(f.addrs.Keys);
    KeysLeft(f.addrs, a);
    var b := First(f.addrs.Keys - {a});
    assert forall x :: x in f.addrs && x != a ==> x in f.addrs.Keys - {a};
    (a, b)
  }

  /** The two lowest blocks touch. */
  predicate LowestTouch(f: FreeMap) {
    |f.addrs| >= 2 && Adjacent(f, Lowest(f).0, Lowest(f).1)
  }

  function LowestJoined(f: FreeMap): FreeMap
    requires LowestTouch(f)
  {
    Coalesced(f, Lowest(f).0, Lowest(f).1)
  }

  lemma LowestJoinedAgree(f: FreeMap)
    requires Agree(f) && LowestTouch(f)
    ensures Agree(LowestJoined(f)) && |LowestJoined(f).addrs| == |f.addrs| - 1
  {
    CoalescedAgree(f, Lowest(f).0, Lowest(f).1);
    CoalescedAddrs(f, Lowest(f).0, Lowest(f).1);
  }

  lemma LowestJoinedAddrs(f: FreeMap)
    requires Agree(f) && LowestTouch(f)
    ensures var (a, b) := Lowest(f);
            LowestJoined(f).addrs == (f.addrs - {b})[a := (Full(f.addrs, a) + Full(f.addrs, b), 0)]
  {
    hide Coalesced, Lowest;
    var (a, b) := Lowest(f);
    CoalescedAddrs(f, a, b);
    assert f.addrs[a].1 == 0 && f.addrs[b].1 == 0;
  }

  lemma LowestJoinedIs(f: FreeMap, a: nat, b: nat)
    requires Agree(f) && LowestTouch(f) && (a, b) == Lowest(f)
    ensures LowestJoined(f) ==
            FreeMap(AddSize(DropSize(DropSize(f.sizes, b, f.addrs[b].0), a, f.addrs[a].0), a, f.addrs[a].0 + f.addrs[b].0),
                    (f.addrs - {a} - {b})[a := (f.addrs[a].0 + f.addrs[b].0, f.addrs[a].1 + f.addrs[b].1)])
  {
    hide Agree, Coalesced, Lowest, DropSize, AddSize;
    NoPaddings(f, a);
    NoPaddings(f, b);
    CoalescedAddrs(f, a, b);
    CoalescedSizes(f, a, b);
    var m := f.addrs;
    var e := (m[a].0 + m[b].0, 0);
    assert (m - {a} - {b})[a := e] == (m - {b})[a := e];
  }

  /** What the merge pass amounts to: the leading run of touching blocks becomes one block,
      and nothing behind the first gap is looked at. */
  ghost function Merged(f: FreeMap): (g: FreeMap)
    requires Agree(f)
    ensures Agree(g) && !LowestTouch(g) && (f.addrs != map[] ==> g.addrs != map[])
    decreases |f.addrs|
  {
    if !LowestTouch(f) then f
    else
      LowestJoinedAgree(f);
      assert |LowestJoined(f).addrs| >= 1;
      Merged(LowestJoined(f))
  }

  /** Blocks do not overlap. */
  ghost predicate Disjoint(m: Entries) {
    forall a, b :: a in m && b in m && a < b ==> a + Full(m, a) <= b
  }

  /** The blocks below `end` are one run from the lowest on: each ends where another begins, the
      last at `end`, where none begins. */
  ghost predicate LeadingRun(m: Entries, end: nat) {
    end !in m && forall b :: b in m && b < end ==> Linked(m, b, end)
  }

  predicate Linked(m: Entries, b: nat, end: nat) {
    b + Full(m, b) == end || (b + Full(m, b) < end && b + Full(m, b) in m)
  }

  lemma LowestJoinedDisjoint(f: FreeMap)
    requires Agree(f) && LowestTouch(f) && Disjoint(f.addrs)
    ensures Disjoint(LowestJoined(f).addrs)
    ensures LowestJoined(f).addrs != map[] && First(LowestJoined(f).addrs.Keys) == First(f.addrs.Keys) == Lowest(f).0
  {
    hide LowestJoined, Agree;
    LowestJoinedAddrs(f);
    var (a, b) := Lowest(f);
    var g := LowestJoined(f);
    assert a in g.addrs;
  }

  lemma TwoLowest(f: FreeMap, b: nat)
    requires f.addrs != map[] && b in f.addrs && b != First(f.addrs.Keys)
    ensures |f.addrs| >= 2 && Lowest(f).0 == First(f.addrs.Keys)
  {
    var a := First(f.addrs.Keys);
    CardinalityBound({a, b}, f.addrs.Keys);
    assert |{a, b}| == 2;
  }

  lemma SingleRun(f: FreeMap)
    requires Agree(f) && f.addrs != map[] && Disjoint(f.addrs) && !LowestTouch(f)
    ensures var a := First(f.addrs.Keys);
            && a in f.addrs && LeadingRun(f.addrs, a + Full(f.addrs, a))
            && forall b :: b in f.addrs ==> b == a || b > a + Full(f.addrs, a)
  {
    var a := First(f.addrs.Keys);
    forall b | b in f.addrs && b != a ensures b > a + Full(f.addrs, a) {
      TwoLowest(f, b);
      var y := Lowest(f).1;
      NoPaddings(f, a);
      hide Agree, Lowest;
      assert a + Full(f.addrs, a) <= y <= b;
    }
  }

  /** `h` is `m` with the blocks from `a` up to `end` made one. */
  ghost predicate RunJoined(m: Entries, h: Entries, a: nat, end: nat) {
    && a < end && LeadingRun(m, end)
    && (forall b :: b in h <==> b == a || (b in m && b > end))
    && h[a] == (end - a, 0)
    && (forall b :: b in m && b > end ==> h[b] == m[b])
  }

  lemma SingleRunJoined(f: FreeMap)
    requires Agree(f) && f.addrs != map[] && Disjoint(f.addrs) && !LowestTouch(f)
    ensures var a := First(f.addrs.Keys);
            RunJoined(f.addrs, f.addrs, a, a + Full(f.addrs, a))
  {
    SingleRun(f);
    NoPaddings(f, First(f.addrs.Keys));
  }

  lemma RunJoinedBefore(f: FreeMap, h: Entries, end: nat)
    requires Agree(f) && LowestTouch(f) && RunJoined(LowestJoined(f).addrs, h, Lowest(f).0, end)
    ensures RunJoined(f.addrs, h, Lowest(f).0, end)
  {
    hide LowestJoined, Lowest, LeadingRun, Agree;
    RunBefore(f, end);
  }

  lemma MergedTwice(f: FreeMap)
    requires Agree(f)
    ensures LowestTouch(f) ==> Agree(LowestJoined(f)) && Merged(f) == Merged(LowestJoined(f))
    ensures !LowestTouch(f) ==> Merged(f) == f
  {
    if LowestTouch(f) { LowestJoinedAgree(f); }
  }

  /** The merge pass turns the leading run of touching blocks into one block and leaves every
      other block alone. */
  lemma {:induction false} MergedShape(f: FreeMap) returns (end: nat)
    requires Agree(f) && f.addrs != map[] && Disjoint(f.addrs)
    ensures RunJoined(f.addrs, Merged(f).addrs, First(f.addrs.Keys), end)
    decreases |f.addrs|
  {
    hide Agree, Merged, RunJoined, Disjoint, Lowest, LowestJoined;
    MergedTwice(f);
    if LowestTouch(f) {
      LowestJoinedAgree(f);
      LowestJoinedDisjoint(f);
      end := MergedShape(LowestJoined(f));
      RunJoinedBefore(f, Merged(f).addrs, end);
    } else {
      SingleRunJoined(f);
      end := First(f.addrs.Keys) + Full(f.addrs, First(f.addrs.Keys));
    }
  }

  lemma RunBefore(f: FreeMap, end: nat)
    requires Agree(f) && LowestTouch(f) && LeadingRun(LowestJoined(f).addrs, end)
    requires Lowest(f).0 < end
    ensures LeadingRun(f.addrs, end) && Lowest(f).1 < end
    ensures forall b :: b > end ==> (b in f.addrs <==> b in LowestJoined(f).addrs)
    ensures forall b :: b > end && b in f.addrs ==> LowestJoined(f).addrs[b] == f.addrs[b]
  {
    var (a, b) := Lowest(f);
    LowestJoinedAddrs(f);
    NoPaddings(f, a);
    NoPaddings(f, b);
    hide LowestJoined, Lowest, LeadingRun;
    RunWithout(f.addrs, LowestJoined(f).addrs, a, b, end);
  }

  lemma RunWithout(m: Entries, g: Entries, a: nat, b: nat, end: nat)
    requires a in m && b in m && a < end && a + Full(m, a) == b && Full(m, a) > 0 && Full(m, b) > 0
    requires g == (m - {b})[a := (Full(m, a) + Full(m, b), 0)] && LeadingRun(g, end)
    ensures LeadingRun(m, end) && b < end
    ensures forall x :: x > end ==> (x in m <==> x in g)
    ensures forall x :: x > end && x in m ==> g[x] == m[x]
  {
    assert a in g && Full(g, a) == Full(m, a) + Full(m, b);
    assert Linked(g, a, end);
    forall x | x in m && x < end ensures Linked(m, x, end) {
      if x != a && x != b {
        assert x in g && Full(g, x) == Full(m, x);
        assert Linked(g, x, end);
      }
    }
  }
}
