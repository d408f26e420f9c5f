/** The B-tree allocator as its callers use it, one call at a time: each method is proved to
    do exactly the locked steps of the concurrent model. */
module BTreeAllocator {
  import opened Options
  import opened AllocLayout
  import opened AllocOwners
  import opened FreeEntries
  import opened BTreeHeap
  import opened BTreeRuns

  /** A merge pass over an empty free map counts below zero and panics. */
  datatype Outcome = Panicked | NoMemory | Got(addr: nat)

  /** The result of the part of a malloc under the free lock. */
  datatype Found = Overrun | Nowhere | At(a: nat)

  datatype Probe = ProbePanicked | Answer(fits: bool)

  /** Some free block has at least `need` bytes. */
  ghost predicate HasBlock(m: Entries, need: int) {
    exists a :: a in m && Full(m, a) >= need
  }

  /** Block `a` is the smallest, or one of the smallest, with at least `need` bytes. */
  ghost predicate BestFit(m: Entries, need: int, a: nat) {
    && a in m && Full(m, a) >= need
    && forall b :: b in m && Full(m, b) >= need ==> Full(m, a) <= Full(m, b)
  }

  lemma FitsIff(f: FreeMap, size: nat, align: nat)
    requires Agree(f) && size > 0
    ensures Fits(f, size, align) <==> HasBlock(f.addrs, size + align - 1)
  {
    var k := FirstFrom(f.sizes.Keys, Upper(size, align));
    if k.Some? {
      var a :| a in f.sizes[k.value];
      assert a in f.addrs && Full(f.addrs, a) == k.value;
    }
    if HasBlock(f.addrs, size + align - 1) {
      var a :| a in f.addrs && Full(f.addrs, a) >= size + align - 1;
      assert f.addrs[a].0 in f.sizes.Keys;
    }
  }

  lemma CandidateIsBestFit(f: FreeMap, size: nat, align: nat, a: nat)
    requires Agree(f) && size > 0 && Candidate(f, size, align, a)
    ensures BestFit(f.addrs, size + align - 1, a)
  {
    forall b | b in f.addrs && Full(f.addrs, b) >= size + align - 1 ensures Full(f.addrs, a) <= Full(f.addrs, b) {
      assert f.addrs[b].0 in f.sizes.Keys;
    }
  }

  /** A request can be met at once, or after a merge pass. */
  ghost predicate CanAlloc(f: FreeMap, size: nat, align: nat)
    requires Agree(f) && size > 0
  {
    Fits(f, size, align) || (f.addrs != map[] && Fits(Merged(f), size, align))
  }

  lemma InvAgrees(h: Heap)
    requires Inv(h)
    ensures Agree(h.free)
  {
  }

  /** Which is whether a block is large enough, before or after the pass, for the worst
      alignment; on an empty map it is not. */
  lemma CanAllocIff(f: FreeMap, size: nat, align: nat)
    requires Agree(f) && size > 0
    ensures CanAlloc(f, size, align) <==>
            HasBlock(f.addrs, size + align - 1) || HasBlock(Merged(f).addrs, size + align - 1)
    ensures f.addrs == map[] ==> !Fits(f, size, align) && !CanAlloc(f, size, align)
  {
    FitsIff(f, size, align);
    FitsIff(Merged(f), size, align);
    if f.addrs == map[] { assert Merged(f) == f; }
  }

  /** The free map a request is served from. */
  ghost function ServedFrom(f: FreeMap, size: nat, align: nat): FreeMap
    requires Agree(f) && size > 0
  {
    if Fits(f, size, align) then f else Merged(f)
  }

  /** The heap `h'` after a malloc from heap `h` that popped the block at `a` and handed out
      `addr`: the two locked steps, one after the other. */
  ghost predicate ServedAt(h: Heap, h': Heap, size: nat, align: nat, a: nat, addr: nat) {
    && Inv(h) && Enabled(h, Carve(size, align, a))
    && var h1 := Apply(h, Carve(size, align, a));
       && Inv(h1) && Enabled(h1, Commit(a))
       && h' == Apply(h1, Commit(a))
       && addr == a + CalcPadding(a, align)
       && BestFit(h.free.addrs, size + align - 1, a)
       && a <= addr && h'.alloc == h.alloc[addr := (size, addr - a)]
  }

  /** The heap `h'` after freeing `addr` in heap `h`. */
  ghost predicate FreedAt(h: Heap, h': Heap, addr: nat) {
    && Inv(h) && Enabled(h, Take(addr)) && h.alloc[addr].1 <= addr
    && var h1 := Apply(h, Take(addr));
       && Inv(h1) && Enabled(h1, Give(addr - h.alloc[addr].1))
       && h' == Apply(h1, Give(addr - h.alloc[addr].1))
       && h'.alloc == h.alloc - {addr}
  }

  /** The free map `g` after cutting a request off the block popped at `a` in `f`. */
  ghost predicate CutAt(f: FreeMap, g: FreeMap, size: nat, align: nat, a: nat)
    requires size > 0 && align > 0
  {
    && Candidate(f, size, align, a)
    && a in f.addrs && size + CalcPadding(a, align) <= Full(f.addrs, a)
    && g == CutOff(f, a, size + CalcPadding(a, align))
  }

  /** A bucket emptied first and removed last is a bucket removed. */
  lemma LateRemoval(sizes: map<nat, set<nat>>, k: nat, a: nat, b: nat, rest: nat)
    requires k in sizes && a in sizes[k] && rest != k
    ensures var popped := sizes[k := sizes[k] - {a}];
            && (sizes[k] - {a} == {} ==> popped - {k} == DropSize(sizes, a, k))
            && (sizes[k] - {a} == {} ==> AddSize(popped, b, rest) - {k} == AddSize(DropSize(sizes, a, k), b, rest))
            && (sizes[k] - {a} != {} ==> popped == DropSize(sizes, a, k))
  {
    var popped := sizes[k := sizes[k] - {a}];
    if sizes[k] - {a} == {} {
      assert popped - {k} == sizes - {k};
      assert AddSize(popped, b, rest) - {k} == AddSize(sizes - {k}, b, rest);
    }
  }

  lemma TouchIs(f: FreeMap, a: nat, b: nat)
    requires |f.addrs| >= 2 && (a, b) == Lowest(f)
    ensures a in f.addrs && (LowestTouch(f) <==> a + f.addrs[a].0 + f.addrs[a].1 == b)
  {
  }

  /** Two entries taken out and put back. */
  lemma PutBack(m: Entries, a: nat, b: nat)
    requires a in m && b in m
    ensures (m - {a} - {b})[a := m[a]][b := m[b]] == m
  {
  }

  class BTreeAlloc {
    var sizes: map<nat, set<nat>>
    var addrs: Entries
    var allocatedAddrs: Entries
    var freeSpace: int
    var startAddr: nat
    var maxSize: nat

    ghost function FreeView(): FreeMap
      reads this
    {
      FreeMap(sizes, addrs)
    }

    /** Between calls nothing is travelling. */
    ghost function View(): Heap
      reads this
    {
      Heap(FreeView(), allocatedAddrs, map[], map[], freeSpace, startAddr, maxSize)
    }

    ghost predicate Valid()
      reads this
    {
      Inv(View())
    }

    constructor (start: nat, size: nat)
      requires size > 0
      ensures Valid() && View() == Init(start, size)
    {
      startAddr, maxSize := start, size;
      sizes := map[size := {start}];
      addrs := map[start := (size, 0)];
      allocatedAddrs := map[];
      freeSpace := size;
      new;
      InitInv(start, size);
    }

    method RemoveSize(addr: nat, size: nat)
      modifies this`sizes
      ensures sizes == DropSize(old(sizes), addr, size)
    {
      var removeSize := false;
      if size in sizes {
        var rest := sizes[size] - {addr};
        sizes := sizes[size := rest];
        removeSize := rest == {};
      }
      if removeSize {
        sizes := sizes - {size};
      }
    }

    /** The merge pass: re-examines the two lowest blocks until the counter has seen as many
        gaps as there are blocks left. */
    method Merge() returns (ok: bool)
      requires Agree(FreeView())
      modifies this`sizes, this`addrs
      ensures ok <==> old(addrs) != map[]
      ensures Agree(FreeView())
      ensures FreeView() == if ok then Merged(old(FreeView())) else old(FreeView())
    {
      if addrs == map[] {
        return false;
      }
      hide Agree, Lowest, LowestJoined;
      var i := 0;
      while i < |addrs| - 1
        invariant 0 <= i
        invariant Agree(FreeView()) && Merged(FreeView()) == Merged(old(FreeView()))
        invariant i > 0 ==> !LowestTouch(FreeView())
        decreases |addrs| - 1 - i
      {
        ghost var f := FreeView();
        var joined := MergeLowest();
        if !joined {
          i := i + 1;
        }
        assert Merged(FreeView()) == Merged(f);
      }
      assert !LowestTouch(FreeView());
      ok := true;
    }

    /** Pops the two lowest blocks and puts back their union, or both of them. */
    method MergeLowest() returns (joined: bool)
      requires Agree(FreeView()) && |addrs| >= 2
      modifies this`sizes, this`addrs
      ensures joined == LowestTouch(old(FreeView()))
      ensures FreeView() == if joined then LowestJoined(old(FreeView())) else old(FreeView())
      ensures Agree(FreeView()) && (joined ==> |addrs| == |old(addrs)| - 1)
    {
      ghost var f := FreeView();
      hide Agree, DropSize, AddSize, Coalesced, Lowest, LowestJoined, LowestTouch;
      var (faddr, naddr) := Lowest(FreeMap(sizes, addrs));
      var (fsize, fpadding) := addrs[faddr];
      var (nsize, npadding) := addrs[naddr];
      var rest := addrs - {faddr} - {naddr};
      TouchIs(f, faddr, naddr);
      if faddr + fsize + fpadding == naddr {
        var newSize, newPadding := fsize + nsize, fpadding + npadding;
        NoPaddings(f, faddr);
        NoPaddings(f, naddr);
        assert newPadding == 0;
        LowestJoinedAgree(f);
        LowestJoinedIs(f, faddr, naddr);
        RemoveSize(naddr, nsize);
        RemoveSize(faddr, fsize);
        addrs := rest[faddr := (newSize, newPadding)];
        sizes := AddSize(sizes, faddr, newSize);
        joined := true;
      } else {
        addrs := rest[faddr := (fsize, fpadding)][naddr := (nsize, npadding)];
        PutBack(f.addrs, faddr, naddr);
        joined := false;
      }
    }

    /** Pops an address from bucket `k`, cuts the block to size and puts the rest back. */
    method PopAndCut(k: nat, size: nat, align: nat) returns (a: nat)
      requires Agree(FreeView()) && size > 0 && align > 0
      requires FirstFrom(sizes.Keys, Upper(size, align)) == Some(k)
      modifies this`sizes, this`addrs
      ensures Candidate(old(FreeView()), size, align, a)
      ensures a in old(addrs) && size + CalcPadding(a, align) <= Full(old(addrs), a)
      ensures FreeView() == CutOff(old(FreeView()), a, size + CalcPadding(a, align))
    {
      ghost var f := FreeView();
      BucketsFilled(f, k);
      a :| a in sizes[k];
      CandidateFits(f, size, align, a);
      BucketSize(f, k, a);
      hide Agree, DropSize, AddSize, CalcPadding;
      var emptied := sizes[k] - {a} == {};
      sizes := sizes[k := sizes[k] - {a}];
      var full := size + CalcPadding(a, align);
      var (fsize, fpadding) := addrs[a];
      LateRemoval(f.sizes, k, a, a + full, fsize + fpadding - full);
      addrs := addrs - {a};
      if fsize + fpadding != full {
        var remaining := fsize + fpadding - full;
        sizes := AddSize(sizes, a + full, remaining);
        addrs := addrs[a + full := (remaining, 0)];
      }
      if emptied {
        sizes := sizes - {k};
      }
    }

    /** What a malloc does under the free lock: pop a block, or merge and look again. */
    method FindBlock(size: nat, align: nat) returns (r: Found, passes: nat)
      requires Agree(FreeView()) && size > 0 && align > 0
      modifies this`sizes, this`addrs
      ensures r.Overrun? <==> !Fits(old(FreeView()), size, align) && old(addrs) == map[]
      ensures r.At? <==> CanAlloc(old(FreeView()), size, align)
      ensures r.At? <==> HasBlock(old(addrs), size + align - 1)
                         || HasBlock(Merged(old(FreeView())).addrs, size + align - 1)
      ensures r.Nowhere? ==> FreeView() == Merged(old(FreeView()))
      ensures r.At? ==> CutAt(ServedFrom(old(FreeView()), size, align), FreeView(), size, align, r.a)
      ensures passes <= 2
    {
      ghost var f := FreeView();
      hide Agree, Merged, CutOff, CalcPadding, HasBlock;
      CanAllocIff(f, size, align);
      var upper := size + align - 1;
      r := Nowhere;
      var tryAgain := true;
      passes := 0;
      while tryAgain
        invariant passes <= 1 || !tryAgain
        invariant passes <= 2 && !r.Overrun? && (r.Nowhere? ==> Agree(FreeView()))
        invariant r.Nowhere? ==> FreeView() == if passes == 0 then f else Merged(f)
        invariant r.Nowhere? && passes > 0 ==>
                    !Fits(f, size, align) && f.addrs != map[] && (tryAgain <==> Fits(Merged(f), size, align))
        invariant r.At? ==>
                    && !tryAgain && CanAlloc(f, size, align)
                    && CutAt(ServedFrom(f, size, align), FreeView(), size, align, r.a)
        invariant passes == 0 ==> tryAgain
        decreases 2 - passes
      {
        passes := passes + 1;
        var k := FirstFrom(sizes.Keys, upper);
        if k.Some? {
          var a := PopAndCut(k.value, size, align);
          r := At(a);
          tryAgain := false;
        } else {
          var ok := Merge();
          if !ok {
            return Overrun, passes;
          }
          if FirstFrom(sizes.Keys, upper).None? {
            tryAgain := false;
          }
        }
      }
    }

    method TryMalloc(size: nat, align: nat) returns (r: Outcome, passes: nat)
      requires Valid() && size > 0 && align > 0
      modifies this
      ensures r.Panicked? <==> old(addrs) == map[]
      ensures r.Got? <==> HasBlock(old(addrs), size + align - 1)
                          || HasBlock(Merged(old(FreeView())).addrs, size + align - 1)
      ensures !r.Panicked? ==> Valid()
      ensures r.NoMemory? ==> View() == old(View()).(free := Merged(old(FreeView())))
      ensures r.Got? ==>
                && r.addr % align == 0
                && exists a :: ServedAt(old(View()).(free := ServedFrom(old(FreeView()), size, align)), View(),
                                        size, align, a, r.addr)
      ensures passes <= 2
    {
      ghost var h := View();
      hide Agree, Tiled, Balanced, Merged, CutOff, CalcPadding, Candidate, Fits, HasBlock, BestFit;
      CanAllocIff(h.free, size, align);
      var found: Found;
      found, passes := FindBlock(size, align);
      match found
      case Overrun => r := Panicked;
      case Nowhere =>
        ServedInv(h);
        r := NoMemory;
      case At(a) =>
        ServeInv(h, size, align, a);
        var padding := CalcPadding(a, align);
        allocatedAddrs := allocatedAddrs[a + padding := (size, padding)];
        freeSpace := freeSpace - (size + padding);
        CommitView(h.(free := ServedFrom(h.free, size, align)), View(), size, align, a);
        r := Got(a + padding);
    }

    /** The probe answers as the allocation would; it also leaves the merged free map. */
    method FakeMalloc(size: nat, align: nat) returns (r: Probe)
      requires Valid() && size > 0
      modifies this`sizes, this`addrs
      ensures r.ProbePanicked? <==> old(addrs) == map[]
      ensures r.Answer? ==> (r.fits <==> HasBlock(old(addrs), size + align - 1)
                                         || HasBlock(Merged(old(FreeView())).addrs, size + align - 1))
      ensures Valid()
      ensures View() == old(View()) || View() == old(View()).(free := Merged(old(FreeView())))
    {
      ghost var h := View();
      hide Agree, Tiled, Balanced, Merged, HasBlock;
      CanAllocIff(h.free, size, align);
      var upper := size + align - 1;
      if FirstFrom(sizes.Keys, upper).Some? {
        return Answer(true);
      }
      var ok := Merge();
      if !ok {
        return ProbePanicked;
      }
      ServedInv(h);
      r := Answer(FirstFrom(sizes.Keys, upper).Some?);
    }

    method Free(addr: nat) returns (ok: bool)
      requires Valid()
      modifies this
      ensures Valid()
      ensures ok <==> addr in old(allocatedAddrs)
      ensures !ok ==> View() == old(View())
      ensures ok ==> FreedAt(old(View()), View(), addr)
    {
      ghost var h := View();
      hide Agree, Tiled, Balanced, GivenBack, FreedAt;
      if addr !in allocatedAddrs {
        return false;
      }
      EntryShapes(Own(h), h.start, h.start + h.max);
      var (size, padding) := allocatedAddrs[addr];
      allocatedAddrs := allocatedAddrs - {addr};
      freeSpace := freeSpace + (size + padding);
      GiveBack(addr - padding, size, padding);
      FreeInv(h, View(), addr);
      ok := true;
    }

    /** What a free does under the free lock: join the neighbours that touch. */
    method GiveBack(a: nat, size: nat, padding: nat)
      requires Agree(FreeView())
      modifies this`sizes, this`addrs
      ensures FreeView() == GivenBack(old(FreeView()), a, size, padding)
    {
      ghost var f := FreeView();
      hide Agree, DropSize, AddSize;
      var addr := a + padding;
      var tempAddr, tempSize := a, size + padding;
      var left, right := LastBelow(addrs.Keys, a), FirstFrom(addrs.Keys, addr);
      var joinLeft := left.Some? && left.value + addrs[left.value].0 + addrs[left.value].1 == addr;
      if joinLeft {
        tempAddr := left.value;
        tempSize := tempSize + addrs[left.value].0 + addrs[left.value].1;
      }
      assert tempAddr == (if LeftJoin(f, a, addr).Some? then LeftJoin(f, a, addr).value else a);
      var joinRight := right.Some? && tempAddr + tempSize == right.value;
      if joinRight {
        tempSize := tempSize + addrs[right.value].0 + addrs[right.value].1;
      }
      if joinLeft {
        NoPaddings(f, left.value);
        RemoveSize(left.value, addrs[left.value].0 + addrs[left.value].1);
        addrs := addrs - {left.value};
      }
      if joinRight {
        NoPaddings(f, right.value);
        RemoveSize(right.value, addrs[right.value].0 + addrs[right.value].1);
        addrs := addrs - {right.value};
      }
      addrs := addrs[tempAddr := (tempSize, 0)];
      sizes := AddSize(sizes, tempAddr, tempSize);
    }

    method SpaceAvail() returns (n: int)
      requires Valid()
      ensures n == Total(addrs)
    {
      n := freeSpace;
      var empty: Entries := map[];
      assert Total(empty) == 0;
    }

    method Occupied() returns (n: int)
      requires Valid()
      ensures n == Total(allocatedAddrs)
    {
      n := maxSize - freeSpace;
    }
  }

  lemma FreeInv(h: Heap, h': Heap, addr: nat)
    requires Inv(h) && h.giving == map[] && addr in h.alloc && h.alloc[addr].1 <= addr
    requires h' == h.(alloc := h.alloc - {addr}, freeSpace := h.freeSpace + Full(h.alloc, addr),
                      free := GivenBack(h.free, addr - h.alloc[addr].1, h.alloc[addr].0, h.alloc[addr].1))
    ensures Inv(h') && FreedAt(h, h', addr)
  {
    hide Inv, GivenBack;
    TakeInv(h, addr);
    var a := addr - h.alloc[addr].1;
    var h1 := Apply(h, Take(addr));
    GiveInv(h1, a);
    assert h1.giving - {a} == map[];
  }

  lemma BucketsFilled(f: FreeMap, k: nat)
    requires Agree(f) && k in f.sizes
    ensures f.sizes[k] != {}
  {
  }

  lemma BucketSize(f: FreeMap, k: nat, a: nat)
    requires Agree(f) && k in f.sizes && a in f.sizes[k]
    ensures a in f.addrs && f.addrs[a] == (k, 0) && k > 0
  {
  }

  lemma ServedInv(h: Heap)
    requires Inv(h) && h.free.addrs != map[]
    ensures Inv(h.(free := Merged(h.free)))
  {
    hide Inv, Merged;
    MergeInv(h);
  }

  lemma ServeInv(h: Heap, size: nat, align: nat, a: nat)
    requires Inv(h) && size > 0 && align > 0 && CanAlloc(h.free, size, align)
    requires Candidate(ServedFrom(h.free, size, align), size, align, a)
    ensures var h0 := h.(free := ServedFrom(h.free, size, align));
            && Inv(h0) && Enabled(h0, Carve(size, align, a))
            && Inv(Apply(h0, Carve(size, align, a)))
            && a in Apply(h0, Carve(size, align, a)).taking
            && Inv(Apply(Apply(h0, Carve(size, align, a)), Commit(a)))
  {
    hide Agree, Tiled, Balanced, Merged;
    if !Fits(h.free, size, align) { ServedInv(h); }
    var h0 := h.(free := ServedFrom(h.free, size, align));
    CarveInv(h0, size, align, a);
    CommitInv(Apply(h0, Carve(size, align, a)), a);
  }

  lemma CommitView(h0: Heap, h': Heap, size: nat, align: nat, a: nat)
    requires Inv(h0) && h0.taking == map[] && Enabled(h0, Carve(size, align, a))
    requires Inv(Apply(h0, Carve(size, align, a)))
    requires a in h0.free.addrs && size + CalcPadding(a, align) <= Full(h0.free.addrs, a)
    requires var padding := CalcPadding(a, align);
             h' == h0.(free := CutOff(h0.free, a, size + padding), alloc := h0.alloc[a + padding := (size, padding)],
                       freeSpace := h0.freeSpace - (size + padding))
    ensures ServedAt(h0, h', size, align, a, a + CalcPadding(a, align))
  {
    hide Inv, CutOff, CalcPadding, BestFit, Candidate, Agree;
    InvAgrees(h0);
    CandidateIsBestFit(h0.free, size, align, a);
    var h1 := Apply(h0, Carve(size, align, a));
    assert h1.taking - {a} == map[];
  }
}
