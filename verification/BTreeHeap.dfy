/** The B-tree allocator under concurrency: a transition system whose steps are what the
    allocator does while it holds one of its two locks. */
module BTreeHeap {
  import opened Options
  import opened AllocLayout
  import opened AllocOwners
  import opened FreeEntries

  /** `alloc` is `allocated_addrs`; `taking` and `giving` are the blocks between the two
      locks of a malloc and of a free. */
  datatype Heap = Heap(
    free: FreeMap,
    alloc: Entries,
    taking: Entries,
    giving: Entries,
    freeSpace: int,
    start: nat,
    max: nat)

  datatype Step =
    | Carve(size: nat, align: nat, a: nat)   // malloc under the free lock: cut a block out
    | Merge                                  // malloc or probe under the free lock: merge pass
    | Commit(a: nat)                         // malloc under the allocated lock: record it
    | Take(addr: nat)                        // free under the allocated lock: withdraw it
    | Give(a: nat)                           // free under the free lock: give it back

  function Init(start: nat, max: nat): Heap {
    Heap(FreeMap(map[max := {start}], map[start := (max, 0)]), map[], map[], map[], max, start, max)
  }

  function Own(h: Heap): Owners {
    Owners(h.free.addrs, h.alloc, h.taking, h.giving)
  }

  /** The space counter counts what is free or travelling; the rest is allocated. */
  ghost predicate Balanced(h: Heap) {
    && h.freeSpace == Total(h.free.addrs) + Total(h.taking) + Total(h.giving)
    && h.freeSpace + Total(h.alloc) == h.max
  }

  ghost predicate Inv(h: Heap) {
    Agree(h.free) && Tiled(Own(h), h.start, h.start + h.max) && Balanced(h)
  }

  /** The most a block may have to hold for a request. */
  function Upper(size: nat, align: nat): nat
    requires size > 0
  {
    size + align - 1
  }

  /** Some free block is large enough whatever its alignment. */
  predicate Fits(f: FreeMap, size: nat, align: nat)
    requires size > 0
  {
    FirstFrom(f.sizes.Keys, Upper(size, align)).Some?
  }

  /** `a` may be popped for a request: its size is the smallest that is large enough. */
  predicate Candidate(f: FreeMap, size: nat, align: nat, a: nat)
    requires size > 0
  {
    var k := FirstFrom(f.sizes.Keys, Upper(size, align));
    k.Some? && a in f.sizes[k.value]
  }

  lemma CandidateFits(f: FreeMap, size: nat, align: nat, a: nat)
    requires Agree(f) && size > 0 && align > 0 && Candidate(f, size, align, a)
    ensures a in f.addrs && size + CalcPadding(a, align) <= Full(f.addrs, a)
  {
  }

  /** The free map after cutting `full` bytes off the block at `a`. */
  function CutOff(f: FreeMap, a: nat, full: nat): FreeMap
    requires a in f.addrs && full <= Full(f.addrs, a)
  {
    var rest := Full(f.addrs, a) - full;
    if rest == 0 then Removed(f, a) else Inserted(Removed(f, a), a + full, rest)
  }

  function LeftJoin(f: FreeMap, a: nat, addr: nat): (r: Option<nat>)
    ensures r.Some? ==> r.value in f.addrs && r.value < a && Adjacent(f, r.value, addr)
  {
    var left := LastBelow(f.addrs.Keys, a);
    if left.Some? && Adjacent(f, left.value, addr) then left else None
  }

  function RightJoin(f: FreeMap, addr: nat, end: nat): (r: Option<nat>)
    ensures r.Some? ==> r.value in f.addrs && r.value == end && addr <= end
  {
    var right := FirstFrom(f.addrs.Keys, addr);
    if right.Some? && right.value == end then right else None
  }

  /** The free map after giving back the block at `a`. The left neighbour is compared with
      the padded address, the right one looked for from there. */
  function GivenBack(f: FreeMap, a: nat, size: nat, padding: nat): FreeMap {
    var addr := a + padding;
    var left := LeftJoin(f, a, addr);
    var a1 := if left.Some? then left.value else a;
    var size1 := size + padding + if left.Some? then Full(f.addrs, left.value) else 0;
    var right := RightJoin(f, addr, a1 + size1);
    var size2 := size1 + if right.Some? then Full(f.addrs, right.value) else 0;
    var f1 := if left.Some? then Removed(f, left.value) else f;
    var f2 := if right.Some? then Removed(f1, right.value) else f1;
    Inserted(f2, a1, size2)
  }

  predicate Enabled(h: Heap, t: Step) {
    match t
    case Carve(size, align, a) => size > 0 && align > 0 && Candidate(h.free, size, align, a)
    case Merge => h.free.addrs != map[]
    case Commit(a) => a in h.taking
    case Take(addr) => addr in h.alloc
    case Give(a) => a in h.giving
  }

  ghost function Apply(h: Heap, t: Step): Heap
    requires Inv(h) && Enabled(h, t)
  {
    match t
    case Carve(size, align, a) =>
      CandidateFits(h.free, size, align, a);
      var padding := CalcPadding(a, align);
      h.(free := CutOff(h.free, a, size + padding), taking := h.taking[a := (size, padding)])
    case Merge => h.(free := Merged(h.free))
    case Commit(a) =>
      h.(taking := h.taking - {a}, alloc := h.alloc[a + h.taking[a].1 := h.taking[a]],
         freeSpace := h.freeSpace - Full(h.taking, a))
    case Take(addr) =>
      h.(alloc := h.alloc - {addr}, giving := h.giving[addr - h.alloc[addr].1 := h.alloc[addr]],
         freeSpace := h.freeSpace + Full(h.alloc, addr))
    case Give(a) =>
      h.(giving := h.giving - {a}, free := GivenBack(h.free, a, h.giving[a].0, h.giving[a].1))
  }

  // ---------------------------------------------------------------- every step keeps it

  lemma InitTiled(start: nat, max: nat)
    requires max > 0
    ensures Tiled(Own(Init(start, max)), start, start + max)
  {
    var m := LayoutOf(Own(Init(start, max)));
    assert Free(start) in m && m[Free(start)] == Block(start, max);
    forall x ensures start <= x < start + max <==> Covered(m, x) {
      if start <= x < start + max { assert Has(m[Free(start)], x); }
    }
  }

  lemma InitInv(start: nat, max: nat)
    requires max > 0
    ensures Inv(Init(start, max))
  {
    hide Tiled;
    InitTiled(start, max);
    var empty: Entries := map[];
    assert Init(start, max).free.addrs == empty[start := (max, 0)];
    TotalInsert(empty, start, (max, 0));
  }

  lemma CutOffAddrs(f: FreeMap, a: nat, full: nat)
    requires a in f.addrs && full <= Full(f.addrs, a)
    ensures CutOff(f, a, full).addrs == CutFree(f.addrs, a, full)
  {
  }

  lemma CutOffAgree(f: FreeMap, a: nat, full: nat)
    requires Agree(f) && a in f.addrs && full <= Full(f.addrs, a)
    requires full < Full(f.addrs, a) ==> a + full !in f.addrs
    ensures Agree(CutOff(f, a, full))
  {
    hide Agree, Removed, Inserted;
    RemovedAgree(f, a);
    if full < Full(f.addrs, a) {
      InsertedAgree(Removed(f, a), a + full, Full(f.addrs, a) - full);
    }
  }

  lemma CarveInv(h: Heap, size: nat, align: nat, a: nat)
    requires Inv(h) && Enabled(h, Carve(size, align, a))
    ensures Inv(Apply(h, Carve(size, align, a)))
  {
    hide Agree, Tiled, Total, CutOff;
    CandidateFits(h.free, size, align, a);
    var padding := CalcPadding(a, align);
    CarvedTiled(Own(h), h.start, h.start + h.max, a, size, padding);
    CutOffAgree(h.free, a, size + padding);
    CutOffAddrs(h.free, a, size + padding);
    CutTotal(h.free.addrs, a, size + padding);
    FreeNotTaking(Own(h), h.start, h.start + h.max, a);
    TotalInsert(h.taking, a, (size, padding));
    assert Own(Apply(h, Carve(size, align, a))) == Carved(Own(h), a, size, padding);
  }

  lemma CommitInv(h: Heap, a: nat)
    requires Inv(h) && Enabled(h, Commit(a))
    ensures Inv(Apply(h, Commit(a)))
  {
    hide Agree, Tiled, Total;
    CommittedTiled(Own(h), h.start, h.start + h.max, a);
    TakingNotAlloc(Own(h), h.start, h.start + h.max, a);
    TotalRemove(h.taking, a);
    TotalInsert(h.alloc, a + h.taking[a].1, h.taking[a]);
    assert Own(Apply(h, Commit(a))) == Committed(Own(h), a);
  }

  lemma TakeInv(h: Heap, addr: nat)
    requires Inv(h) && Enabled(h, Take(addr))
    ensures Inv(Apply(h, Take(addr)))
  {
    hide Agree, Tiled, Total;
    EntryShapes(Own(h), h.start, h.start + h.max);
    WithdrawnTiled(Own(h), h.start, h.start + h.max, addr);
    AllocNotGiving(Own(h), h.start, h.start + h.max, addr);
    TotalRemove(h.alloc, addr);
    TotalInsert(h.giving, addr - h.alloc[addr].1, h.alloc[addr]);
    assert Own(Apply(h, Take(addr))) == Withdrawn(Own(h), addr);
  }

  lemma LowestJoinedTiled(f: FreeMap, o: Owners, lo: nat, hi: nat)
    requires Agree(f) && LowestTouch(f) && o.free == f.addrs && Tiled(o, lo, hi)
    ensures Tiled(o.(free := LowestJoined(f).addrs), lo, hi)
    ensures Total(LowestJoined(f).addrs) == Total(f.addrs)
  {
    hide Agree, Tiled, Total, LowestJoined, Lowest;
    var (a, b) := Lowest(f);
    LowestJoinedAddrs(f);
    JoinedTiled(o, lo, hi, a, b);
    JoinTotal(f.addrs, a, b);
  }

  lemma {:induction false} MergedTiled(f: FreeMap, o: Owners, lo: nat, hi: nat)
    requires Agree(f) && o.free == f.addrs && Tiled(o, lo, hi)
    ensures Tiled(o.(free := Merged(f).addrs), lo, hi) && Total(Merged(f).addrs) == Total(f.addrs)
    decreases |f.addrs|
  {
    hide Agree, Tiled, Total, LowestTouch, LowestJoined;
    if LowestTouch(f) {
      LowestJoinedAgree(f);
      LowestJoinedTiled(f, o, lo, hi);
      var o' := o.(free := LowestJoined(f).addrs);
      MergedTiled(LowestJoined(f), o', lo, hi);
      assert o'.(free := Merged(f).addrs) == o.(free := Merged(f).addrs);
    } else {
      assert o.(free := Merged(f).addrs) == o;
    }
  }

  lemma MergeInv(h: Heap)
    requires Inv(h) && Enabled(h, Merge)
    ensures Inv(Apply(h, Merge))
  {
    hide Agree, Tiled, Total, Merged;
    MergedTiled(h.free, Own(h), h.start, h.start + h.max);
    assert Own(Apply(h, Merge)) == Own(h).(free := Merged(h.free).addrs);
  }

  /** Giving a block back in three moves: insert it, join the left neighbour, join the right
      neighbour. */
  function GivenAddrs(m: Entries, a: nat, full: nat, left: Option<nat>, right: Option<nat>): Entries
    requires a !in m && (left.Some? ==> left.value in m && left.value != a)
    requires right.Some? ==> right.value in m && right.value != a && (left.Some? ==> right.value != left.value)
  {
    var m1 := m[a := (full, 0)];
    var m2 := if left.Some? then JoinFree(m1, left.value, a) else m1;
    if right.Some? then JoinFree(m2, if left.Some? then left.value else a, right.value) else m2
  }

  lemma GivenBackAgree(f: FreeMap, a: nat, size: nat, padding: nat)
    requires Agree(f) && a !in f.addrs && size > 0
    ensures Agree(GivenBack(f, a, size, padding))
  {
    hide Agree, Removed, Inserted, LeftJoin, RightJoin;
    var addr := a + padding;
    var left := LeftJoin(f, a, addr);
    var a1 := if left.Some? then left.value else a;
    var size1 := size + padding + if left.Some? then Full(f.addrs, left.value) else 0;
    var right := RightJoin(f, addr, a1 + size1);
    var f1 := if left.Some? then Removed(f, left.value) else f;
    if left.Some? { RemovedAgree(f, left.value); }
    if right.Some? { RemovedAgree(f1, right.value); }
    var f2 := if right.Some? then Removed(f1, right.value) else f1;
    InsertedAgree(f2, a1, size1 + if right.Some? then Full(f.addrs, right.value) else 0);
  }

  lemma GivenBackAddrs(f: FreeMap, a: nat, size: nat, padding: nat)
    requires a !in f.addrs && size > 0
    ensures var left := LeftJoin(f, a, a + padding);
            var end := (if left.Some? then left.value else a) + size + padding
                       + (if left.Some? then Full(f.addrs, left.value) else 0);
            GivenBack(f, a, size, padding).addrs
              == GivenAddrs(f.addrs, a, size + padding, left, RightJoin(f, a + padding, end))
  {
  }

  lemma GivenTiled(o: Owners, lo: nat, hi: nat, a: nat, left: Option<nat>, right: Option<nat>)
    requires Tiled(o, lo, hi) && a in o.giving && a !in o.free
    requires left.Some? ==> left.value in o.free && left.value + Full(o.free, left.value) == a
    requires right.Some? ==> right.value in o.free && right.value == a + Full(o.giving, a)
    ensures Tiled(o.(giving := o.giving - {a}, free := GivenAddrs(o.free, a, Full(o.giving, a), left, right)), lo, hi)
    ensures Total(GivenAddrs(o.free, a, Full(o.giving, a), left, right)) == Total(o.free) + Full(o.giving, a)
  {
    ReturnedTiled(o, lo, hi, a);
    var o1 := Returned(o, a);
    TotalInsert(o.free, a, (Full(o.giving, a), 0));
    var o2 := o1;
    if left.Some? {
      JoinedTiled(o1, lo, hi, left.value, a);
      JoinTotal(o1.free, left.value, a);
      o2 := o1.(free := JoinFree(o1.free, left.value, a));
    }
    if right.Some? {
      var a1 := if left.Some? then left.value else a;
      JoinedTiled(o2, lo, hi, a1, right.value);
      JoinTotal(o2.free, a1, right.value);
    }
  }

  lemma GiveOwn(h: Heap, a: nat)
    requires a in h.giving && a !in h.free.addrs && h.giving[a].0 > 0
    requires Tiled(Own(h), h.start, h.start + h.max)
    ensures var f' := GivenBack(h.free, a, h.giving[a].0, h.giving[a].1);
            && Tiled(Own(h).(giving := h.giving - {a}, free := f'.addrs), h.start, h.start + h.max)
            && Total(f'.addrs) == Total(h.free.addrs) + Full(h.giving, a)
  {
    hide Tiled, Total, GivenBack, GivenAddrs;
    var o, lo, hi := Own(h), h.start, h.start + h.max;
    var (size, padding) := h.giving[a];
    GivenBackAddrs(h.free, a, size, padding);
    var left := LeftJoin(h.free, a, a + padding);
    if left.Some? { GivingClear(o, lo, hi, a, left.value); }
    var end := (if left.Some? then left.value else a) + size + padding
               + (if left.Some? then Full(h.free.addrs, left.value) else 0);
    GivenTiled(o, lo, hi, a, left, RightJoin(h.free, a + padding, end));
  }

  lemma GiveInv(h: Heap, a: nat)
    requires Inv(h) && Enabled(h, Give(a))
    ensures Inv(Apply(h, Give(a)))
  {
    hide Agree, Tiled, Total, GivenBack;
    EntryShapes(Own(h), h.start, h.start + h.max);
    ReturnedTiled(Own(h), h.start, h.start + h.max, a);
    GivenBackAgree(h.free, a, h.giving[a].0, h.giving[a].1);
    GiveOwn(h, a);
    TotalRemove(h.giving, a);
    assert Own(Apply(h, Give(a))) == Own(h).(giving := h.giving - {a}, free := Apply(h, Give(a)).free.addrs);
  }
}
