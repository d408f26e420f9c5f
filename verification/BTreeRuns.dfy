/** Every interleaving of allocator calls: what it keeps, what a caller gets from it, and
    when freed memory coalesces completely. */
module BTreeRuns {
  import opened Options
  import opened AllocLayout
  import opened AllocOwners
  import opened FreeEntries
  import opened BTreeHeap

  lemma StepInv(h: Heap, t: Step)
    requires Inv(h) && Enabled(h, t)
    ensures Inv(Apply(h, t))
  {
    match t
    case Carve(size, align, a) => CarveInv(h, size, align, a);
    case Merge => MergeInv(h);
    case Commit(a) => CommitInv(h, a);
    case Take(addr) => TakeInv(h, addr);
    case Give(a) => GiveInv(h, a);
  }

  /** The heap after a run. Throughout, free, travelling and allocated blocks are pairwise
      disjoint and exactly tile the managed range, the two indexes of the free map agree,
      and the space counter is exact. */
  ghost function Run(start: nat, max: nat, steps: seq<Step>): (r: Option<Heap>)
    requires max > 0
    ensures r.Some? ==> Inv(r.value) && r.value.start == start && r.value.max == max
  {
    if steps == [] then
      InitInv(start, max);
      Some(Init(start, max))
    else
      var prefix := Run(start, max, steps[..|steps| - 1]);
      var t := steps[|steps| - 1];
      if prefix.Some? && Enabled(prefix.value, t) then
        StepInv(prefix.value, t);
        Some(Apply(prefix.value, t))
      else None
  }

  /** Every byte of the managed range belongs to exactly one block, and no other byte to
      any. */
  lemma OneOwnerPerByte(start: nat, max: nat, steps: seq<Step>, x: int)
    requires max > 0 && Run(start, max, steps).Some?
    ensures var o := Own(Run(start, max, steps).value);
            && (Held(o, x) <==> start <= x < start + max)
            && (forall k, l :: KeyIn(o, k) && KeyIn(o, l) && Has(BlockOf(o, k), x) && Has(BlockOf(o, l), x) ==> k == l)
  {
    hide Run, Tiled, Held;
    var o := Own(Run(start, max, steps).value);
    HeldIffInRange(o, start, start + max, x);
    forall k, l | KeyIn(o, k) && KeyIn(o, l) && Has(BlockOf(o, k), x) && Has(BlockOf(o, l), x)
      ensures k == l
    {
      Clash(o, start, start + max, k, l, x);
    }
  }

  /** In every run a merge pass joins exactly the leading run of touching free blocks. */
  lemma MergeJoinsLeadingRun(start: nat, max: nat, steps: seq<Step>) returns (end: nat)
    requires max > 0 && Run(start, max, steps).Some? && Run(start, max, steps).value.free.addrs != map[]
    ensures var h := Run(start, max, steps).value;
            RunJoined(h.free.addrs, Apply(h, Merge).free.addrs, First(h.free.addrs.Keys), end)
  {
    hide Run, RunJoined, Merged;
    var h := Run(start, max, steps).value;
    forall a, b | a in h.free.addrs && b in h.free.addrs && a < b ensures a + Full(h.free.addrs, a) <= b {
      FreeStarts(Own(h), h.start, h.start + h.max, a, b);
    }
    end := MergedShape(h.free);
  }

  /** What a malloc hands out is aligned and lies, with all its bytes, in the managed range. */
  lemma CarveGives(h: Heap, size: nat, align: nat, a: nat)
    requires Inv(h) && Enabled(h, Carve(size, align, a))
    ensures var h' := Apply(h, Carve(size, align, a));
            && a in h'.taking && h'.taking[a].0 == size
            && (a + h'.taking[a].1) % align == 0
            && h.start <= a && a + h'.taking[a].1 + size <= h.start + h.max
  {
    hide Tiled, Agree, Balanced;
    CandidateFits(h.free, size, align, a);
    FreeInRange(Own(h), h.start, h.start + h.max, a);
  }

  /** The occupied bytes are those of the allocated blocks, paddings included; with no call
      under way the space available is the sum of the free blocks. */
  lemma SpaceIsExact(start: nat, max: nat, steps: seq<Step>)
    requires max > 0 && Run(start, max, steps).Some?
    ensures var h := Run(start, max, steps).value;
            && h.max - h.freeSpace == Total(h.alloc)
            && (h.taking == map[] && h.giving == map[] ==> h.freeSpace == Total(h.free.addrs))
  {
    var h := Run(start, max, steps).value;
    assert Balanced(h);
  }

  // ---------------------------------------------------------------- coalescing

  /** No two free blocks touch. */
  ghost predicate NoneTouch(m: Entries) {
    forall a, b :: a in m && b in m ==> a + Full(m, a) != b
  }

  predicate EndsAt(m: Entries, b: nat, x: nat) {
    b in m && b + Full(m, b) == x
  }

  ghost predicate Unpadded(h: Heap) {
    && (forall a :: a in h.alloc ==> h.alloc[a].1 == 0)
    && (forall a :: a in h.taking ==> h.taking[a].1 == 0)
    && (forall a :: a in h.giving ==> h.giving[a].1 == 0)
  }

  lemma CarveNoneTouch(o: Owners, lo: nat, hi: nat, a: nat, full: nat)
    requires Tiled(o, lo, hi) && NoneTouch(o.free) && a in o.free && 0 < full <= Full(o.free, a)
    ensures NoneTouch(CutFree(o.free, a, full))
  {
    var m' := CutFree(o.free, a, full);
    forall c, d | c in m' && d in m' ensures c + Full(m', c) != d {
      if c == a + full && c !in o.free {
        assert d in o.free ==> a + Full(o.free, a) != d;
      } else if d == a + full && d !in o.free && c + Full(m', c) == d {
        assert c in o.free && c != a;
        Clash(o, lo, hi, Free(a), Free(c), a + full - 1);
      }
    }
  }

  /** Nothing free lies between the block given back and the neighbours it is joined to. */
  lemma Neighbours(o: Owners, lo: nat, hi: nat, f: FreeMap, a: nat)
    requires Tiled(o, lo, hi) && f.addrs == o.free && a in o.giving
    ensures var (size, padding) := o.giving[a];
            var left := LeftJoin(f, a, a + padding);
            && (padding > 0 ==> left.None?)
            && (padding == 0 ==> (left.Some? <==> exists b :: EndsAt(o.free, b, a)))
            && (RightJoin(f, a + padding, a + size + padding).Some? <==> a + size + padding in o.free)
  {
    hide Tiled, LeftJoin, RightJoin;
    NeighbourLeft(o, lo, hi, f, a);
    NeighbourRight(o, lo, hi, f, a);
  }

  lemma NeighbourLeft(o: Owners, lo: nat, hi: nat, f: FreeMap, a: nat)
    requires Tiled(o, lo, hi) && f.addrs == o.free && a in o.giving
    ensures var padding := o.giving[a].1;
            var left := LeftJoin(f, a, a + padding);
            && (padding > 0 ==> left.None?)
            && (padding == 0 ==> (left.Some? <==> exists b :: EndsAt(o.free, b, a)))
  {
    var padding := o.giving[a].1;
    var left := LeftJoin(f, a, a + padding);
    EntryShapes(o, lo, hi);
    if left.Some? {
      GivingClear(o, lo, hi, a, left.value);
      assert EndsAt(o.free, left.value, a + padding);
    }
    if padding == 0 {
      if b :| EndsAt(o.free, b, a) {
        LastNeighbour(o, lo, hi, f, a, b);
      }
    }
  }

  lemma NeighbourRight(o: Owners, lo: nat, hi: nat, f: FreeMap, a: nat)
    requires Tiled(o, lo, hi) && f.addrs == o.free && a in o.giving
    ensures var (size, padding) := o.giving[a];
            RightJoin(f, a + padding, a + size + padding).Some? <==> a + size + padding in o.free
  {
    var (size, padding) := o.giving[a];
    var end := a + size + padding;
    EntryShapes(o, lo, hi);
    if end in o.free {
      var r := FirstFrom(f.addrs.Keys, a + padding);
      GivingClear(o, lo, hi, a, r.value);
    }
  }

  lemma LastNeighbour(o: Owners, lo: nat, hi: nat, f: FreeMap, a: nat, b: nat)
    requires Tiled(o, lo, hi) && f.addrs == o.free && EndsAt(o.free, b, a)
    ensures LeftJoin(f, a, a) == Option.Some(b)
  {
    assert o.free[b].0 > 0;
    var g := LastBelow(f.addrs.Keys, a);
    assert b in f.addrs.Keys && b < a;
    if g.value > b { FreeStarts(o, lo, hi, b, g.value); }
  }

  /** The keys of the free map after a block comes back. */
  lemma GivenKeys(m: Entries, a: nat, full: nat, left: Option<nat>, right: Option<nat>)
    requires a !in m && (left.Some? ==> left.value in m && left.value + Full(m, left.value) == a && left.value < a)
    requires right.Some? ==> right.value in m && right.value == a + full && full > 0
    ensures var m' := GivenAddrs(m, a, full, left, right);
            var a1 := if left.Some? then left.value else a;
            && a1 in m'
            && a1 + Full(m', a1) == a + full + (if right.Some? then Full(m, right.value) else 0)
            && (forall b :: b in m' && b != a1 ==> b in m && Full(m', b) == Full(m, b))
            && (forall b :: b in m' && b != a1 ==> (right.Some? ==> b != right.value) && (left.Some? ==> b != left.value))
            && (forall b :: b in m && (right.Some? ==> b != right.value) ==> b in m')
  {
  }

  /** Which neighbours a block is joined to when it comes back. */
  lemma GiveShape(h: Heap, a: nat) returns (left: Option<nat>, right: Option<nat>)
    requires Inv(h) && a in h.giving
    ensures var m, full := h.free.addrs, Full(h.giving, a);
            && a !in m && full > 0
            && (left.Some? ==> left.value < a && EndsAt(m, left.value, a))
            && (right.Some? ==> right.value in m && right.value == a + full)
            && (right.None? ==> a + full !in m)
            && (left.None? <==> h.giving[a].1 > 0 || !exists b :: EndsAt(m, b, a))
            && Apply(h, Give(a)).free.addrs == GivenAddrs(m, a, full, left, right)
  {
    hide Agree, Tiled, Balanced, GivenBack, GivenAddrs, LeftJoin, RightJoin;
    var (size, padding) := h.giving[a];
    EntryShapes(Own(h), h.start, h.start + h.max);
    ReturnedTiled(Own(h), h.start, h.start + h.max, a);
    Neighbours(Own(h), h.start, h.start + h.max, h.free, a);
    GivenBackAddrs(h.free, a, size, padding);
    left := LeftJoin(h.free, a, a + padding);
    right := RightJoin(h.free, a + padding, a + size + padding);
  }

  lemma JoinedNoneTouch(m: Entries, a: nat, full: nat, left: Option<nat>, right: Option<nat>)
    requires NoneTouch(m) && a !in m && full > 0
    requires left.Some? ==> left.value < a && EndsAt(m, left.value, a)
    requires right.Some? ==> right.value in m && right.value == a + full
    requires right.None? ==> a + full !in m
    requires left.None? ==> !exists b :: EndsAt(m, b, a)
    ensures NoneTouch(GivenAddrs(m, a, full, left, right))
  {
    hide GivenAddrs;
    GivenKeys(m, a, full, left, right);
    var m' := GivenAddrs(m, a, full, left, right);
    var a1 := if left.Some? then left.value else a;
    hide Full;
    forall c, d | c in m' && d in m' ensures c + Full(m', c) != d {
      if c != a1 && d == a1 {
        assert !EndsAt(m, c, a1);
      } else if c == a1 && d != a1 {
        assert right.Some? ==> right.value + Full(m, right.value) != d;
      } else if c != a1 && d != a1 {
        assert c + Full(m, c) != d;
      }
    }
  }

  lemma UnjoinedTouch(m: Entries, a: nat, full: nat, right: Option<nat>, b: nat)
    requires a !in m && full > 0 && EndsAt(m, b, a) && b < a
    requires right.Some? ==> right.value in m && right.value == a + full
    ensures !NoneTouch(GivenAddrs(m, a, full, None, right))
  {
    hide GivenAddrs;
    GivenKeys(m, a, full, None, right);
    var m' := GivenAddrs(m, a, full, None, right);
    assert b in m' && a in m' && b + Full(m', b) == a;
  }

  /** The exact price of comparing the left neighbour with the padded address: giving a
      block back leaves no two free blocks touching if and only if it carries no padding or
      no free block ends where it begins. */
  lemma GiveCoalescesIff(h: Heap, a: nat)
    requires Inv(h) && NoneTouch(h.free.addrs) && a in h.giving
    ensures NoneTouch(Apply(h, Give(a)).free.addrs) <==>
            h.giving[a].1 == 0 || !exists b :: EndsAt(h.free.addrs, b, a)
  {
    hide Agree, Tiled, Balanced, NoneTouch, GivenAddrs, Apply;
    var m, full := h.free.addrs, Full(h.giving, a);
    var left, right := GiveShape(h, a);
    if h.giving[a].1 > 0 && exists b :: EndsAt(m, b, a) {
      var b :| EndsAt(m, b, a);
      FreeNonEmpty(h, b);
      UnjoinedTouch(m, a, full, right, b);
    } else {
      JoinedNoneTouch(m, a, full, left, right);
    }
  }

  lemma FreeNonEmpty(h: Heap, b: nat)
    requires Inv(h) && b in h.free.addrs
    ensures Full(h.free.addrs, b) > 0
  {
    assert h.free.addrs[b].0 > 0;
  }

  // ---------------------------------------------------------------- unpadded runs

  /** No call of the run needed padding for its alignment. */
  ghost predicate NoPadding(steps: seq<Step>) {
    forall i :: 0 <= i < |steps| && steps[i].Carve? && steps[i].align > 0 ==>
      CalcPadding(steps[i].a, steps[i].align) == 0
  }

  lemma StepUnpadded(h: Heap, t: Step)
    requires Inv(h) && Enabled(h, t) && Unpadded(h)
    requires t.Carve? ==> CalcPadding(t.a, t.align) == 0
    ensures Unpadded(Apply(h, t))
  {
    hide Agree, Tiled, Balanced, Merged, GivenBack, CutOff;
  }

  lemma CarveStepNoneTouch(h: Heap, size: nat, align: nat, a: nat)
    requires Inv(h) && Enabled(h, Carve(size, align, a)) && NoneTouch(h.free.addrs)
    requires CalcPadding(a, align) == 0
    ensures NoneTouch(Apply(h, Carve(size, align, a)).free.addrs)
  {
    hide Agree, Tiled, Balanced, NoneTouch, CutOff, CutFree;
    CandidateFits(h.free, size, align, a);
    CutOffAddrs(h.free, a, size);
    CarveNoneTouch(Own(h), h.start, h.start + h.max, a, size);
  }

  lemma MergeChangesNothing(f: FreeMap)
    requires Agree(f) && NoneTouch(f.addrs)
    ensures Merged(f) == f
  {
    assert !LowestTouch(f);
  }

  lemma StepNoneTouch(h: Heap, t: Step)
    requires Inv(h) && Enabled(h, t) && Unpadded(h) && NoneTouch(h.free.addrs)
    requires t.Carve? ==> CalcPadding(t.a, t.align) == 0
    ensures NoneTouch(Apply(h, t).free.addrs)
  {
    hide Agree, Tiled, Balanced, NoneTouch, Merged, GivenBack, CutOff;
    match t
    case Carve(size, align, a) => CarveStepNoneTouch(h, size, align, a);
    case Merge => MergeChangesNothing(h.free);
    case Commit(a) =>
    case Take(addr) =>
    case Give(a) => GiveCoalescesIff(h, a);
  }

  lemma {:induction false} UnpaddedRunCoalesces(start: nat, max: nat, steps: seq<Step>)
    requires max > 0 && Run(start, max, steps).Some? && NoPadding(steps)
    ensures NoneTouch(Run(start, max, steps).value.free.addrs) && Unpadded(Run(start, max, steps).value)
    decreases |steps|
  {
    hide Inv, Agree, Tiled, Balanced;
    if steps != [] {
      var init := steps[..|steps| - 1];
      assert NoPadding(init) by {
        assert forall i :: 0 <= i < |init| ==> init[i] == steps[i];
      }
      UnpaddedRunCoalesces(start, max, init);
      StepUnpadded(Run(start, max, init).value, steps[|steps| - 1]);
      StepNoneTouch(Run(start, max, init).value, steps[|steps| - 1]);
    }
  }

  lemma AllFreedOneBlock(h: Heap)
    requires Inv(h) && h.max > 0 && NoneTouch(h.free.addrs)
    requires h.alloc == map[] && h.taking == map[] && h.giving == map[]
    ensures h.free.addrs == map[h.start := (h.max, 0)]
  {
    hide Agree, Tiled, Balanced, NoneTouch;
    var o, lo, hi := Own(h), h.start, h.start + h.max;
    HeldIffInRange(o, lo, hi, lo);
    var k :| KeyIn(o, k) && Has(BlockOf(o, k), lo);
    var a := k.a;
    FreeInRange(o, lo, hi, a);
    assert a == lo;
    var end := a + Full(h.free.addrs, a);
    if end < hi {
      HeldIffInRange(o, lo, hi, end);
      var l :| KeyIn(o, l) && Has(BlockOf(o, l), end);
      NextByteNotFree(h, a, l.a);
    }
    forall b | b in h.free.addrs ensures b == a {
      FreeInRange(o, lo, hi, b);
      FreeNonEmpty(h, b);
      if a < b { FreeStarts(o, lo, hi, a, b); }
    }
    FreeNoPadding(h, a);
  }

  lemma FreeNoPadding(h: Heap, a: nat)
    requires Inv(h) && a in h.free.addrs
    ensures h.free.addrs[a].1 == 0
  {
  }

  /** With no two blocks touching, the byte behind a free block is not free. */
  lemma NextByteNotFree(h: Heap, a: nat, b: nat)
    requires Inv(h) && NoneTouch(h.free.addrs) && a in h.free.addrs && b in h.free.addrs
    ensures !Has(Block(b, Full(h.free.addrs, b)), a + Full(h.free.addrs, a))
  {
    hide Agree, Tiled, Balanced;
    var end := a + Full(h.free.addrs, a);
    FreeNonEmpty(h, a);
    if b < end < b + Full(h.free.addrs, b) {
      Clash(Own(h), h.start, h.start + h.max, Free(a), Free(b), end - 1);
    }
  }

  lemma SameBuckets(f: FreeMap, g: FreeMap, k: nat)
    requires Agree(f) && Agree(g) && f.addrs == g.addrs && k in f.sizes
    ensures k in g.sizes && f.sizes[k] <= g.sizes[k]
  {
    forall a | a in f.sizes[k] ensures k in g.sizes && a in g.sizes[k] {
      assert a in g.addrs && g.addrs[a].0 == k;
    }
    var a :| a in f.sizes[k];
  }

  /** The index by size follows from the index by address. */
  lemma SizesFollow(f: FreeMap, g: FreeMap)
    requires Agree(f) && Agree(g) && f.addrs == g.addrs
    ensures f == g
  {
    hide Agree;
    forall k | k in f.sizes || k in g.sizes ensures k in f.sizes && k in g.sizes && f.sizes[k] == g.sizes[k] {
      if k in f.sizes {
        SameBuckets(f, g, k);
        SameBuckets(g, f, k);
      } else {
        SameBuckets(g, f, k);
      }
    }
    assert f.sizes == g.sizes;
  }

  /** When a run that needed no padding has freed everything, the free map is back at its
      initial single entry in both indexes. */
  lemma EverythingFreedCoalesces(start: nat, max: nat, steps: seq<Step>)
    requires max > 0 && Run(start, max, steps).Some? && NoPadding(steps)
    requires var h := Run(start, max, steps).value;
             h.alloc == map[] && h.taking == map[] && h.giving == map[]
    ensures Run(start, max, steps).value.free == Init(start, max).free
  {
    hide Run, Agree, Tiled, Balanced, NoneTouch;
    var h := Run(start, max, steps).value;
    UnpaddedRunCoalesces(start, max, steps);
    AllFreedOneBlock(h);
    InitInv(start, max);
    SizesFollow(h.free, Init(start, max).free);
  }

  /** The smallest failing case: bytes 3 to 8, of which the first is padding, come back
      between the free bytes 1 to 3 and 8 to 17. Only the right neighbour is joined. */
  lemma PaddedBlockMissesLeftNeighbour()
    ensures var f := FreeMap(map[2 := {1}, 9 := {8}], map[1 := (2, 0), 8 := (9, 0)]);
            && NoneTouch(f.addrs)
            && GivenBack(f, 3, 4, 1).addrs == map[1 := (2, 0), 3 := (14, 0)]
            && !NoneTouch(GivenBack(f, 3, 4, 1).addrs)
  {
    var f := FreeMap(map[2 := {1}, 9 := {8}], map[1 := (2, 0), 8 := (9, 0)]);
    assert 1 in f.addrs.Keys && 8 in f.addrs.Keys;
    var l, r := LastBelow(f.addrs.Keys, 3), FirstFrom(f.addrs.Keys, 4);
    assert l == Option.Some(1) && r == Option.Some(8);
    assert LeftJoin(f, 3, 4) == Option.None && RightJoin(f, 4, 8) == Option.Some(8);
    var m := GivenBack(f, 3, 4, 1).addrs;
    assert m == map[1 := (2, 0), 3 := (14, 0)];
    assert 1 in m && 3 in m && 1 + Full(m, 1) == 3;
  }
}
