/** The linear allocator: first fit over a sorted list of entries. The reference is `Room`,
    which says which addresses could serve a request without mentioning gaps or the list's
    order; a request gets the lowest such address. */
module LinearAllocator {
  import opened Options
  import opened AllocLayout
  import opened Sums

  datatype Vma = Vma(addr: nat, padding: nat, size: nat)

  datatype FreeOutcome = Freed | NotFound | Underflowed

  function End(e: Vma): nat {
    e.addr + e.size + e.padding
  }

  /** The address a caller was given for an entry. */
  function Handle(e: Vma): nat {
    e.addr + e.padding
  }

  /** Entries lie above `start`, in order, without overlap. */
  predicate Sorted(es: seq<Vma>, start: nat) {
    && (forall i :: 0 <= i < |es| ==> start <= es[i].addr)
    && (forall i, j :: 0 <= i < j < |es| ==> End(es[i]) <= es[j].addr)
  }

  predicate Within(es: seq<Vma>, hi: nat) {
    forall i :: 0 <= i < |es| ==> End(es[i]) <= hi
  }

  function Sizes(es: seq<Vma>): (s: seq<nat>)
    ensures |s| == |es|
  {
    seq(|es|, i requires 0 <= i < |es| => es[i].size + es[i].padding)
  }

  predicate Aligned(a: nat, align: nat)
    requires align > 0
  {
    a % align == 0
  }

  /** An aligned address whose bytes lie in the region and belong to no entry. */
  predicate Room(es: seq<Vma>, start: nat, max: nat, size: nat, align: nat, a: nat)
    requires align > 0
  {
    && Aligned(a, align) && start <= a && a + size <= start + max
    && forall i :: 0 <= i < |es| ==> a + size <= es[i].addr || End(es[i]) <= a
  }

  ghost predicate SomeRoom(es: seq<Vma>, start: nat, max: nat, size: nat, align: nat)
    requires align > 0
  {
    exists a :: Room(es, start, max, size, align, a)
  }

  ghost predicate LowestRoom(es: seq<Vma>, start: nat, max: nat, size: nat, align: nat, a: nat)
    requires align > 0
  {
    Room(es, start, max, size, align, a) && forall b :: Room(es, start, max, size, align, b) ==> a <= b
  }

  /** Where gap `k`, the one in front of entry `k`, begins. */
  function GapStart(es: seq<Vma>, start: nat, k: nat): nat
    requires k <= |es|
  {
    if k == 0 then start else End(es[k - 1])
  }

  /** Entry `k` leaves enough space in front of it. */
  predicate GapHolds(es: seq<Vma>, start: nat, size: nat, align: nat, k: nat)
    requires align > 0 && k < |es|
  {
    var g := GapStart(es, start, k);
    g + size + CalcPadding(g, align) <= es[k].addr
  }

  /** The gap the search stops at: the first that holds the request, or the one behind the
      last entry. */
  predicate StopsAt(es: seq<Vma>, start: nat, size: nat, align: nat, k: nat)
    requires align > 0
  {
    && k <= |es|
    && (forall j :: 0 <= j < k ==> !GapHolds(es, start, size, align, j))
    && (k < |es| ==> GapHolds(es, start, size, align, k))
  }

  /** The entry made for a request served in gap `k`. */
  function Made(es: seq<Vma>, start: nat, size: nat, align: nat, k: nat): Vma
    requires align > 0 && k <= |es|
  {
    var g := GapStart(es, start, k);
    Vma(g, CalcPadding(g, align), size)
  }

  function Placed(es: seq<Vma>, start: nat, size: nat, align: nat, k: nat): seq<Vma>
    requires align > 0 && k <= |es|
  {
    es[..k] + [Made(es, start, size, align, k)] + es[k..]
  }

  /** `es'` is `es` with one more entry of the given size at place `k`, handed out as `a`, whose
      padding reaches back to the entry before it. */
  predicate PlacedIn(es: seq<Vma>, es': seq<Vma>, start: nat, size: nat, k: nat, a: nat) {
    && k <= |es| && |es'| == |es| + 1 && es' == es[..k] + [es'[k]] + es[k..]
    && es'[k].addr == (if k == 0 then start else End(es[k - 1]))
    && es'[k].size == size && Handle(es'[k]) == a
  }

  /** On an empty list the guard compares a length with an end address, so it lets through
      requests that are too long for the region but not longer than its end address. */
  predicate Overlong(es: seq<Vma>, start: nat, max: nat, size: nat, align: nat)
    requires align > 0
  {
    es == [] && max < size + CalcPadding(start, align) <= start + max
  }

  /** Free addresses begin no lower than the padded start of the gap they lie in. */
  lemma RoomLiesInGap(es: seq<Vma>, start: nat, max: nat, size: nat, align: nat, a: nat) returns (k: nat)
    requires align > 0 && Sorted(es, start) && Room(es, start, max, size, align, a)
    ensures k <= |es| && Handle(Made(es, start, size, align, k)) <= a
    ensures k < |es| ==> GapHolds(es, start, size, align, k)
  {
    k := |es|;
    while k > 0 && a + size <= es[k - 1].addr
      invariant k <= |es|
      invariant k < |es| ==> a + size <= es[k].addr
    {
      k := k - 1;
    }
    var g := GapStart(es, start, k);
    PaddingIsLeast(g, align, a - g);
  }

  /** The gap the search stops at starts no higher than any free address. */
  lemma StopsLowest(es: seq<Vma>, start: nat, max: nat, size: nat, align: nat, k: nat, a: nat)
    requires align > 0 && Sorted(es, start) && StopsAt(es, start, size, align, k)
    requires Room(es, start, max, size, align, a)
    ensures Handle(Made(es, start, size, align, k)) <= a
  {
    var g := RoomLiesInGap(es, start, max, size, align, a);
    if k < g {
      assert End(Made(es, start, size, align, k)) <= es[k].addr;
      assert GapStart(es, start, g) == End(es[g - 1]);
    }
  }

  /** The request placed at the gap the search stops at is itself free. */
  lemma StopsAtRoom(es: seq<Vma>, start: nat, max: nat, size: nat, align: nat, k: nat)
    requires align > 0 && Sorted(es, start) && StopsAt(es, start, size, align, k)
    requires End(Made(es, start, size, align, k)) <= start + max
    ensures Room(es, start, max, size, align, Handle(Made(es, start, size, align, k)))
  {
    var m := Made(es, start, size, align, k);
    forall i | 0 <= i < |es| ensures Handle(m) + size <= es[i].addr || End(es[i]) <= Handle(m) {
      if k < |es| && i > k { assert End(m) <= es[k].addr <= es[i].addr; }
    }
  }

  /** First fit answers exactly the requests that some free address could serve, with the
      lowest such address. */
  lemma FirstFit(es: seq<Vma>, start: nat, max: nat, size: nat, align: nat, k: nat)
    requires align > 0 && Sorted(es, start) && StopsAt(es, start, size, align, k)
    ensures var m := Made(es, start, size, align, k);
            && (End(m) <= start + max <==> SomeRoom(es, start, max, size, align))
            && (End(m) <= start + max ==> LowestRoom(es, start, max, size, align, Handle(m)))
  {
    forall a | Room(es, start, max, size, align, a)
      ensures Handle(Made(es, start, size, align, k)) <= a
    {
      StopsLowest(es, start, max, size, align, k, a);
    }
    if End(Made(es, start, size, align, k)) <= start + max {
      StopsAtRoom(es, start, max, size, align, k);
    }
  }

  lemma PlacedAt(es: seq<Vma>, start: nat, size: nat, align: nat, k: nat, i: nat)
    requires align > 0 && k <= |es| && i <= |es|
    ensures var es' := Placed(es, start, size, align, k);
            && |es'| == |es| + 1
            && es'[i] == if i < k then es[i] else if i == k then Made(es, start, size, align, k) else es[i - 1]
  {
  }

  lemma PlacedInEmpty(start: nat, size: nat, align: nat)
    requires align > 0
    ensures Made([], start, size, align, 0) == Vma(start, CalcPadding(start, align), size)
    ensures Placed([], start, size, align, 0) == [Made([], start, size, align, 0)]
    ensures StopsAt([], start, size, align, 0)
    ensures Aligned(start + CalcPadding(start, align), align)
  {
  }

  lemma PlacedSum(es: seq<Vma>, start: nat, size: nat, align: nat, k: nat)
    requires align > 0 && k <= |es|
    ensures Sum(Sizes(Placed(es, start, size, align, k)))
         == Sum(Sizes(es)) + size + Made(es, start, size, align, k).padding
  {
    var es' := Placed(es, start, size, align, k);
    SumRemove(Sizes(es'), k);
    assert Sizes(es')[..k] + Sizes(es')[k + 1..] == Sizes(es);
  }

  lemma PlacedInOrder(es: seq<Vma>, start: nat, size: nat, align: nat, k: nat, i: nat, j: nat)
    requires align > 0 && Sorted(es, start) && StopsAt(es, start, size, align, k) && i < j <= |es|
    ensures var es' := Placed(es, start, size, align, k);
            |es'| == |es| + 1 && start <= es'[i].addr && End(es'[i]) <= es'[j].addr
  {
    hide Placed;
    PlacedAt(es, start, size, align, k, i);
    PlacedAt(es, start, size, align, k, j);
    if i == k && j > k + 1 { assert es[k].addr <= End(es[k]) <= es[j - 1].addr; }
    if j == k && i + 1 < k { assert End(es[i]) <= es[k - 1].addr; }
  }

  lemma PlacedWithin(es: seq<Vma>, start: nat, max: nat, size: nat, align: nat, k: nat)
    requires align > 0 && k <= |es|
    ensures Within(Placed(es, start, size, align, k), start + max)
       <==> Within(es, start + max) && End(Made(es, start, size, align, k)) <= start + max
  {
    hide Placed, Made;
    var es', m := Placed(es, start, size, align, k), Made(es, start, size, align, k);
    PlacedAt(es, start, size, align, k, k);
    if Within(es', start + max) {
      assert End(es'[k]) <= start + max;
      forall i | 0 <= i < |es| ensures End(es[i]) <= start + max {
        var j := if i < k then i else i + 1;
        PlacedAt(es, start, size, align, k, j);
        assert es[i] == es'[j];
      }
    }
    if Within(es, start + max) && End(m) <= start + max {
      forall i | 0 <= i < |es'| ensures End(es'[i]) <= start + max {
        PlacedAt(es, start, size, align, k, i);
      }
    }
  }

  /** Placing a request keeps the list sorted, and in bounds exactly when it was and the new
      entry is. */
  lemma PlacedSorted(es: seq<Vma>, start: nat, max: nat, size: nat, align: nat, k: nat)
    requires align > 0 && Sorted(es, start) && StopsAt(es, start, size, align, k)
    ensures var es' := Placed(es, start, size, align, k);
            var m := Made(es, start, size, align, k);
            && Sorted(es', start)
            && (Within(es', start + max) <==> Within(es, start + max) && End(m) <= start + max)
            && Sum(Sizes(es')) == Sum(Sizes(es)) + size + m.padding
  {
    hide Placed, Made;
    var es' := Placed(es, start, size, align, k);
    PlacedSum(es, start, size, align, k);
    PlacedWithin(es, start, max, size, align, k);
    PlacedAt(es, start, size, align, k, |es|);
    forall i, j | 0 <= i < j < |es'| ensures start <= es'[i].addr && End(es'[i]) <= es'[j].addr {
      PlacedInOrder(es, start, size, align, k, i, j);
    }
    forall i | 0 <= i < |es'| ensures start <= es'[i].addr {
      if i < |es| { PlacedInOrder(es, start, size, align, k, i, |es|); }
      else if |es| > 0 { PlacedInOrder(es, start, size, align, k, 0, |es|); }
      else { MadeAbove(es, start, size, align, k); }
    }
  }

  lemma MadeAbove(es: seq<Vma>, start: nat, size: nat, align: nat, k: nat)
    requires align > 0 && Sorted(es, start) && k <= |es|
    ensures start <= Made(es, start, size, align, k).addr
  {
  }

  function Without(es: seq<Vma>, i: nat): seq<Vma>
    requires i < |es|
  {
    es[..i] + es[i + 1..]
  }

  /** `es'` is `es` without entry `i`, the first that was handed out as `a`. */
  predicate RemovedAt(es: seq<Vma>, es': seq<Vma>, i: nat, a: nat) {
    && i < |es| && Handle(es[i]) == a && es' == Without(es, i)
    && forall j :: 0 <= j < i ==> Handle(es[j]) != a
  }

  lemma WithoutAt(es: seq<Vma>, i: nat, j: nat)
    requires i < |es| && j < |es| - 1
    ensures |Without(es, i)| == |es| - 1 && Without(es, i)[j] == es[if j < i then j else j + 1]
  {
  }

  lemma WithoutSum(es: seq<Vma>, i: nat)
    requires i < |es|
    ensures Sum(Sizes(Without(es, i))) == Sum(Sizes(es)) - es[i].size - es[i].padding
  {
    SumRemove(Sizes(es), i);
    assert Sizes(es)[..i] + Sizes(es)[i + 1..] == Sizes(Without(es, i));
  }

  lemma WithoutSorted(es: seq<Vma>, start: nat, hi: nat, i: nat)
    requires i < |es| && Sorted(es, start)
    ensures Sorted(Without(es, i), start)
    ensures Within(es, hi) ==> Within(Without(es, i), hi)
    ensures Sum(Sizes(Without(es, i))) == Sum(Sizes(es)) - es[i].size - es[i].padding
  {
    WithoutSum(es, i);
    assert |Without(es, i)| == |es| - 1;
    hide Without, Sizes, Sum;
    forall j, k | 0 <= j < k < |es| - 1 ensures End(Without(es, i)[j]) <= Without(es, i)[k].addr {
      WithoutAt(es, i, j);
      WithoutAt(es, i, k);
    }
    forall j | 0 <= j < |es| - 1
      ensures start <= Without(es, i)[j].addr && (Within(es, hi) ==> End(Without(es, i)[j]) <= hi)
    {
      WithoutAt(es, i, j);
    }
  }

  /** Freeing an entry that was just placed restores the list: an allocation and its free
      cancel. */
  lemma PlaceThenRemove(es: seq<Vma>, start: nat, size: nat, align: nat, k: nat)
    requires align > 0 && k <= |es|
    ensures Without(Placed(es, start, size, align, k), k) == es
  {
    var es' := Placed(es, start, size, align, k);
    assert es'[..k] == es[..k] && es'[k + 1..] == es[k..];
  }

  /** Entries that hold bytes were handed out under different addresses; so an address names
      one entry. */
  lemma HandlesDistinct(es: seq<Vma>, start: nat, i: nat, j: nat)
    requires Sorted(es, start) && i < |es| && j < |es| && i != j
    requires es[i].size > 0 && es[j].size > 0
    ensures Handle(es[i]) != Handle(es[j])
  {
    if i < j { assert End(es[i]) <= es[j].addr; } else { assert End(es[j]) <= es[i].addr; }
  }

  /** Entries in front of a handed-out address have paddings below it, so searching for the
      address subtracts without underflow. */
  lemma PaddingsBelow(es: seq<Vma>, start: nat, i: nat, j: nat)
    requires Sorted(es, start) && j <= i < |es|
    ensures es[j].padding <= Handle(es[i])
  {
    if j < i { assert End(es[j]) <= es[i].addr; }
  }

  /** What becomes of the list `es'` after serving a request in gap `k`. */
  ghost predicate ServedAs(es: seq<Vma>, es': seq<Vma>, start: nat, max: nat, size: nat, align: nat, e: Vma)
    requires align > 0
  {
    && Sorted(es', start)
    && (Within(es', start + max) <==> Within(es, start + max) && End(e) <= start + max)
    && Sum(Sizes(es')) == Sum(Sizes(es)) + size + e.padding
    && exists k :: PlacedIn(es, es', start, size, k, Handle(e))
  }

  lemma MadeIs(es: seq<Vma>, start: nat, size: nat, align: nat, k: nat)
    requires align > 0 && k <= |es|
    ensures var e := Made(es, start, size, align, k);
            e.size == size && e.addr == if k == 0 then start else End(es[k - 1])
  {
  }

  /** Serving at the gap where the search stops. */
  lemma GapServes(es: seq<Vma>, start: nat, max: nat, size: nat, align: nat, k: nat)
    requires align > 0 && Sorted(es, start) && StopsAt(es, start, size, align, k) && es != []
    ensures var e := Made(es, start, size, align, k);
            && !Overlong(es, start, max, size, align)
            && (End(e) <= start + max <==> SomeRoom(es, start, max, size, align))
            && (End(e) <= start + max ==> LowestRoom(es, start, max, size, align, Handle(e)))
            && k <= |es| && ServedAs(es, es[..k] + [e] + es[k..], start, max, size, align, e)
  {
    MadeIs(es, start, size, align, k);
    hide Room, LowestRoom, SomeRoom, Sorted, Within, Sum, Sizes, Made;
    FirstFit(es, start, max, size, align, k);
    PlacedSorted(es, start, max, size, align, k);
    var e := Made(es, start, size, align, k);
    assert PlacedIn(es, es[..k] + [e] + es[k..], start, size, k, Handle(e));
  }

  /** Serving on an empty list. */
  lemma EmptyServes(start: nat, max: nat, size: nat, align: nat)
    requires align > 0
    ensures var e := Vma(start, CalcPadding(start, align), size);
            && (End(e) <= start + max <==> SomeRoom([], start, max, size, align))
            && (End(e) <= start + max ==> LowestRoom([], start, max, size, align, Handle(e)))
            && (Overlong([], start, max, size, align) <==> max < size + e.padding <= start + max)
            && ServedAs([], [e], start, max, size, align, e)
            && Aligned(Handle(e), align)
  {
    hide Room, LowestRoom, SomeRoom, Sum, Sizes;
    PlacedInEmpty(start, size, align);
    FirstFit([], start, max, size, align, 0);
    PlacedSorted([], start, max, size, align, 0);
    var e := Vma(start, CalcPadding(start, align), size);
    assert PlacedIn([], [e], start, size, 0, Handle(e));
  }

  class LinearAlloc {
    var entries: seq<Vma>
    var startAddr: nat
    var maxSize: nat
    /** The source's counter wraps; below zero here is a wrapped value there. */
    var freeSpace: int

    ghost predicate Valid()
      reads this
    {
      Sorted(entries, startAddr) && freeSpace == maxSize - Sum(Sizes(entries))
    }

    ghost predicate InBounds()
      reads this
    {
      Within(entries, startAddr + maxSize)
    }

    constructor (start: nat, size: nat)
      ensures Valid() && InBounds() && entries == [] && startAddr == start && maxSize == size
    {
      entries, startAddr, maxSize, freeSpace := [], start, size, size;
    }

    /** The search both malloc forms start with, on a list with at least one entry. */
    method FindGap(size: nat, align: nat) returns (idx: nat, prevEnd: nat, padding: nat)
      requires align > 0 && Sorted(entries, startAddr) && entries != []
      ensures StopsAt(entries, startAddr, size, align, idx)
      ensures Made(entries, startAddr, size, align, idx) == Vma(prevEnd, padding, size)
      ensures Aligned(prevEnd + padding, align)
    {
      prevEnd := startAddr;
      padding := CalcPadding(prevEnd, align);
      idx := 0;
      for i := 0 to |entries|
        invariant idx == i
        invariant prevEnd == GapStart(entries, startAddr, i) && padding == CalcPadding(prevEnd, align)
        invariant forall j :: 0 <= j < i ==> !GapHolds(entries, startAddr, size, align, j)
      {
        var gap: nat := entries[i].addr - prevEnd;
        if gap >= size + padding {
          break;
        }
        prevEnd := entries[i].addr + entries[i].size + entries[i].padding;
        padding := CalcPadding(prevEnd, align);
        idx := i + 1;
      }
    }

    /** A request is served at the lowest free aligned address, and refused only when there is
        none; the one exception is an overlong request on an empty list, which is served past
        the end of the region. */
    method TryMalloc(size: nat, align: nat) returns (r: Option<nat>)
      requires Valid() && align > 0
      modifies this`entries, this`freeSpace
      ensures Valid()
      ensures r.None? ==> entries == old(entries) && freeSpace == old(freeSpace)
      ensures r.Some? ==> Aligned(r.value, align)
      ensures r.Some? ==> exists k :: PlacedIn(old(entries), entries, startAddr, size, k, r.value)
      ensures r.Some? <==> (|| Overlong(old(entries), startAddr, maxSize, size, align)
                            || SomeRoom(old(entries), startAddr, maxSize, size, align))
      ensures r.Some? && !Overlong(old(entries), startAddr, maxSize, size, align) ==>
                LowestRoom(old(entries), startAddr, maxSize, size, align, r.value)
      ensures InBounds() <==> old(InBounds()) && !Overlong(old(entries), startAddr, maxSize, size, align)
    {
      hide Room, LowestRoom, SomeRoom, Sorted, Within, StopsAt, Sum, Sizes, Made, Aligned, CalcPadding, Overlong, PlacedIn;
      ghost var es, start, max := entries, startAddr, maxSize;
      if |entries| > 0 {
        var idx, prevEnd, padding := FindGap(size, align);
        GapServes(es, start, max, size, align, idx);
        if prevEnd + size + padding <= startAddr + maxSize {
          entries := entries[..idx] + [Vma(prevEnd, padding, size)] + entries[idx..];
          freeSpace := freeSpace - (size + padding);
              return Some(prevEnd + padding);
        } else {
          return None;
        }
      } else {
        var padding := CalcPadding(startAddr, align);
        EmptyServes(start, max, size, align);
        if size + padding <= startAddr + maxSize {
          entries := entries + [Vma(startAddr, padding, size)];
          assert entries == [Vma(startAddr, padding, size)];
          freeSpace := freeSpace - (size + padding);
              return Some(startAddr + padding);
        } else {
          return None;
        }
      }
    }

    /** The probe answers what the allocation would. */
    method FakeMalloc(size: nat, align: nat) returns (fits: bool)
      requires Valid() && align > 0
      ensures fits <==> (|| Overlong(entries, startAddr, maxSize, size, align)
                         || SomeRoom(entries, startAddr, maxSize, size, align))
    {
      hide Room, LowestRoom, SomeRoom, Sorted, Within;
      if |entries| > 0 {
        var idx, prevEnd, padding := FindGap(size, align);
        FirstFit(entries, startAddr, maxSize, size, align, idx);
        fits := prevEnd + size + padding <= startAddr + maxSize;
      } else {
        var padding := CalcPadding(startAddr, align);
        FirstFit(entries, startAddr, maxSize, size, align, 0);
        fits := size + padding <= startAddr + maxSize;
      }
    }

    /** Freeing succeeds exactly on handed-out addresses and removes an entry with that
        address; any other address is returned as unknown, unless some entry's padding exceeds
        it, in which case the subtraction underflows. */
    method Free(addr: nat) returns (r: FreeOutcome)
      requires Valid()
      modifies this`entries, this`freeSpace
      ensures Valid()
      ensures r.Freed? <==> exists i :: 0 <= i < |old(entries)| && Handle(old(entries)[i]) == addr
      ensures r.Freed? ==> exists i :: RemovedAt(old(entries), entries, i, addr)
      ensures !r.Freed? ==> entries == old(entries) && freeSpace == old(freeSpace)
      ensures !r.Freed? ==> (r.Underflowed? <==> exists i :: 0 <= i < |entries| && entries[i].padding > addr)
      ensures old(InBounds()) ==> InBounds()
    {
      ghost var es := entries;
      for i := 0 to |entries|
        invariant entries == es && freeSpace == old(freeSpace)
        invariant forall j :: 0 <= j < i ==> es[j].padding <= addr && Handle(es[j]) != addr
      {
        if entries[i].padding > addr {
          forall j | i <= j < |es| ensures Handle(es[j]) != addr {
            PaddingsBelow(es, startAddr, j, i);
          }
          return Underflowed;
        }
        if addr - entries[i].padding == entries[i].addr {
          WithoutSorted(es, startAddr, startAddr + maxSize, i);
          freeSpace := freeSpace + entries[i].size + entries[i].padding;
          entries := entries[..i] + entries[i + 1..];
          assert RemovedAt(es, entries, i, addr);
          return Freed;
        }
      }
      return NotFound;
    }

    /** While no overlong request was served the counter is a true count, never below zero. */
    method SpaceAvail() returns (n: int)
      requires Valid()
      ensures n + Sum(Sizes(entries)) == maxSize
      ensures InBounds() ==> 0 <= n
    {
      n := freeSpace;
      if InBounds() { SizesFit(entries, startAddr, startAddr + maxSize); }
    }

    method Occupied() returns (n: int)
      requires Valid()
      ensures n == Sum(Sizes(entries))
    {
      n := maxSize - freeSpace;
    }
  }

  lemma SizesHead(es: seq<Vma>)
    requires es != []
    ensures Sum(Sizes(es)) == es[0].size + es[0].padding + Sum(Sizes(es[1..]))
  {
    assert Sizes(es)[1..] == Sizes(es[1..]);
  }

  lemma TailSorted(es: seq<Vma>, lo: nat, hi: nat)
    requires es != [] && Sorted(es, lo) && Within(es, hi)
    ensures Sorted(es[1..], End(es[0])) && Within(es[1..], hi) && lo <= es[0].addr && End(es[0]) <= hi
  {
  }

  /** Sorted entries in bounds take no more than the region. */
  lemma {:induction false} SizesFit(es: seq<Vma>, lo: nat, hi: nat)
    requires Sorted(es, lo) && Within(es, hi) && lo <= hi
    ensures Sum(Sizes(es)) <= hi - lo
  {
    hide Sizes, Sorted, Within;
    if es != [] {
      TailSorted(es, lo, hi);
      SizesFit(es[1..], End(es[0]), hi);
      SizesHead(es);
    }
  }

  /** The guard's exact fault, for every region with a positive start address: some request is
      served past the end. */
  lemma OverlongExists(start: nat, max: nat)
    ensures (exists size, align :: 0 < size && 0 < align && Overlong([], start, max, size, align)) <==> start > 0
  {
    if start > 0 {
      var size: nat, align: nat := start + max, 1;
      assert CalcPadding(start, align) == 0;
      assert Overlong([], start, max, size, align);
    }
  }
}
