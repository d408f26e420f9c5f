/** The four maps that hold the allocator's blocks between them, as one tiling of the
    managed range, and the moves of blocks among them. */
module AllocOwners {
  import opened AllocLayout

  /** `free`, `taking` and `giving` are keyed by the first byte of a block, `alloc` by the
      address handed out, which lies behind the padding. */
  datatype Owners = Owners(free: Entries, alloc: Entries, taking: Entries, giving: Entries)

  predicate KeyIn(o: Owners, k: Key) {
    match k
    case Free(a) => a in o.free
    case Alloc(a) => a in o.alloc && o.alloc[a].1 <= a
    case Taking(a) => a in o.taking
    case Giving(a) => a in o.giving
  }

  function BlockOf(o: Owners, k: Key): Block
    requires KeyIn(o, k)
  {
    match k
    case Free(a) => Block(a, Full(o.free, a))
    case Alloc(a) => Block(a - o.alloc[a].1, Full(o.alloc, a))
    case Taking(a) => Block(a, Full(o.taking, a))
    case Giving(a) => Block(a, Full(o.giving, a))
  }

  ghost function LayoutOf(o: Owners): Layout {
    imap k | KeyIn(o, k) :: BlockOf(o, k)
  }

  ghost predicate Sized(m: Entries) {
    forall a :: a in m ==> m[a].0 > 0
  }

  /** Free, travelling and allocated blocks tile the bytes from `lo` up to `hi`. */
  ghost predicate Tiled(o: Owners, lo: nat, hi: nat) {
    && Sized(o.free) && Sized(o.alloc) && Sized(o.taking) && Sized(o.giving)
    && (forall a :: a in o.alloc ==> o.alloc[a].1 <= a)
    && Tiles(LayoutOf(o), lo, hi)
  }

  /** No two entries share a byte. */
  lemma Clash(o: Owners, lo: nat, hi: nat, k: Key, l: Key, x: int)
    requires Tiled(o, lo, hi) && KeyIn(o, k) && KeyIn(o, l) && Has(BlockOf(o, k), x) && Has(BlockOf(o, l), x)
    ensures k == l
  {
    OneOwner(LayoutOf(o), lo, hi, k, l, x);
  }

  /** Free blocks other than the one at `a` start before it or behind its last byte. */
  lemma FreeStarts(o: Owners, lo: nat, hi: nat, a: nat, b: nat)
    requires Tiled(o, lo, hi) && a in o.free && b in o.free && a < b
    ensures a + Full(o.free, a) <= b
  {
    if b < a + Full(o.free, a) { Clash(o, lo, hi, Free(a), Free(b), b); }
  }

  lemma FreeNotTaking(o: Owners, lo: nat, hi: nat, a: nat)
    requires Tiled(o, lo, hi) && a in o.free
    ensures a !in o.taking
  {
    if a in o.taking { Clash(o, lo, hi, Free(a), Taking(a), a); }
  }

  lemma TakingNotAlloc(o: Owners, lo: nat, hi: nat, a: nat)
    requires Tiled(o, lo, hi) && a in o.taking
    ensures a + o.taking[a].1 !in o.alloc
  {
    var addr := a + o.taking[a].1;
    if addr in o.alloc { Clash(o, lo, hi, Taking(a), Alloc(addr), addr); }
  }

  lemma AllocNotGiving(o: Owners, lo: nat, hi: nat, addr: nat)
    requires Tiled(o, lo, hi) && addr in o.alloc
    ensures addr - o.alloc[addr].1 !in o.giving
  {
    var a := addr - o.alloc[addr].1;
    if a in o.giving { Clash(o, lo, hi, Giving(a), Alloc(addr), a); }
  }

  lemma EntryShapes(o: Owners, lo: nat, hi: nat)
    requires Tiled(o, lo, hi)
    ensures forall a :: a in o.giving ==> o.giving[a].0 > 0
    ensures forall a :: a in o.alloc ==> o.alloc[a].1 <= a
  {
  }

  /** A travelling block lies clear of every free one. */
  lemma GivingClear(o: Owners, lo: nat, hi: nat, a: nat, b: nat)
    requires Tiled(o, lo, hi) && a in o.giving && b in o.free
    ensures b + Full(o.free, b) <= a || a + Full(o.giving, a) <= b
  {
    assert Giving(a) in LayoutOf(o) && Free(b) in LayoutOf(o);
    assert Apart(LayoutOf(o)[Free(b)], LayoutOf(o)[Giving(a)]);
  }

  lemma FreeInRange(o: Owners, lo: nat, hi: nat, a: nat)
    requires Tiled(o, lo, hi) && a in o.free
    ensures lo <= a && a + Full(o.free, a) <= hi
  {
    var m := LayoutOf(o);
    var b := Block(a, Full(o.free, a));
    assert Free(a) in m && m[Free(a)] == b && b.len > 0;
    assert Has(b, a) && Covered(m, a);
    assert Has(b, a + b.len - 1) && Covered(m, a + b.len - 1);
  }

  /** Some entry holds byte `x`. */
  ghost predicate Held(o: Owners, x: int) {
    exists k :: KeyIn(o, k) && Has(BlockOf(o, k), x)
  }

  lemma HeldIffInRange(o: Owners, lo: nat, hi: nat, x: int)
    requires Tiled(o, lo, hi)
    ensures Held(o, x) <==> lo <= x < hi
  {
    var m := LayoutOf(o);
    if Held(o, x) {
      var k :| KeyIn(o, k) && Has(BlockOf(o, k), x);
      assert k in m && Has(m[k], x);
      assert Covered(m, x);
    }
    if lo <= x < hi {
      assert Covered(m, x);
      var k :| k in m && Has(m[k], x);
      assert KeyIn(o, k) && Has(BlockOf(o, k), x);
    }
  }

  // ---------------------------------------------------------------- moves

  function CutFree(m: Entries, a: nat, full: nat): Entries
    requires a in m && full <= Full(m, a)
  {
    var rest := Full(m, a) - full;
    if rest == 0 then m - {a} else (m - {a})[a + full := (rest, 0)]
  }

  function Carved(o: Owners, a: nat, size: nat, padding: nat): Owners
    requires a in o.free && size + padding <= Full(o.free, a)
  {
    o.(free := CutFree(o.free, a, size + padding), taking := o.taking[a := (size, padding)])
  }

  lemma CarvedLayout(o: Owners, a: nat, size: nat, padding: nat)
    requires a in o.free && size + padding < Full(o.free, a)
    ensures SameBut(LayoutOf(o), LayoutOf(Carved(o, a, size, padding)), {Free(a), Taking(a), Free(a + size + padding)})
  {
  }

  lemma CarvedWholeLayout(o: Owners, a: nat, size: nat, padding: nat)
    requires a in o.free && size + padding == Full(o.free, a)
    ensures SameBut(LayoutOf(o), LayoutOf(Carved(o, a, size, padding)), {Free(a), Taking(a)})
  {
  }

  lemma CarvedTiled(o: Owners, lo: nat, hi: nat, a: nat, size: nat, padding: nat)
    requires Tiled(o, lo, hi) && a in o.free && size > 0 && size + padding <= Full(o.free, a)
    ensures Tiled(Carved(o, a, size, padding), lo, hi)
    ensures size + padding < Full(o.free, a) ==> a + size + padding !in o.free
  {
    hide Tiles, SameBut;
    var o' := Carved(o, a, size, padding);
    var full := size + padding;
    FreeNotTaking(o, lo, hi, a);
    if full < Full(o.free, a) {
      CarvedLayout(o, a, size, padding);
      if a + full in o.free { FreeStarts(o, lo, hi, a, a + full); }
      RetileSplit(LayoutOf(o), LayoutOf(o'), Free(a), Taking(a), Free(a + full), lo, hi);
    } else {
      CarvedWholeLayout(o, a, size, padding);
      RetileMove(LayoutOf(o), LayoutOf(o'), Free(a), Taking(a), lo, hi);
    }
  }

  function Committed(o: Owners, a: nat): Owners
    requires a in o.taking
  {
    o.(taking := o.taking - {a}, alloc := o.alloc[a + o.taking[a].1 := o.taking[a]])
  }

  lemma CommittedLayout(o: Owners, a: nat)
    requires a in o.taking
    ensures SameBut(LayoutOf(o), LayoutOf(Committed(o, a)), {Taking(a), Alloc(a + o.taking[a].1)})
  {
  }

  lemma CommittedTiled(o: Owners, lo: nat, hi: nat, a: nat)
    requires Tiled(o, lo, hi) && a in o.taking
    ensures Tiled(Committed(o, a), lo, hi)
  {
    hide Tiles, SameBut;
    TakingNotAlloc(o, lo, hi, a);
    CommittedLayout(o, a);
    RetileMove(LayoutOf(o), LayoutOf(Committed(o, a)), Taking(a), Alloc(a + o.taking[a].1), lo, hi);
  }

  function Withdrawn(o: Owners, addr: nat): Owners
    requires addr in o.alloc && o.alloc[addr].1 <= addr
  {
    o.(alloc := o.alloc - {addr}, giving := o.giving[addr - o.alloc[addr].1 := o.alloc[addr]])
  }

  lemma WithdrawnLayout(o: Owners, addr: nat)
    requires addr in o.alloc && o.alloc[addr].1 <= addr
    ensures SameBut(LayoutOf(o), LayoutOf(Withdrawn(o, addr)), {Alloc(addr), Giving(addr - o.alloc[addr].1)})
  {
  }

  lemma WithdrawnTiled(o: Owners, lo: nat, hi: nat, addr: nat)
    requires Tiled(o, lo, hi) && addr in o.alloc
    ensures Tiled(Withdrawn(o, addr), lo, hi)
  {
    hide Tiles, SameBut;
    AllocNotGiving(o, lo, hi, addr);
    WithdrawnLayout(o, addr);
    RetileMove(LayoutOf(o), LayoutOf(Withdrawn(o, addr)), Alloc(addr), Giving(addr - o.alloc[addr].1), lo, hi);
  }

  /** Back in the free map, padding included, without looking at the neighbours. */
  function Returned(o: Owners, a: nat): Owners
    requires a in o.giving
  {
    o.(giving := o.giving - {a}, free := o.free[a := (Full(o.giving, a), 0)])
  }

  lemma ReturnedTiled(o: Owners, lo: nat, hi: nat, a: nat)
    requires Tiled(o, lo, hi) && a in o.giving
    ensures Tiled(Returned(o, a), lo, hi) && a !in o.free
  {
    hide Tiles;
    if a in o.free { Clash(o, lo, hi, Free(a), Giving(a), a); }
    RetileMove(LayoutOf(o), LayoutOf(Returned(o, a)), Giving(a), Free(a), lo, hi);
  }

  function JoinFree(m: Entries, a: nat, b: nat): Entries
    requires a in m && b in m
  {
    (m - {b})[a := (Full(m, a) + Full(m, b), 0)]
  }

  lemma JoinedLayout(o: Owners, a: nat, b: nat)
    requires a in o.free && b in o.free
    ensures SameBut(LayoutOf(o), LayoutOf(o.(free := JoinFree(o.free, a, b))), {Free(a), Free(b), Free(a)})
  {
  }

  lemma JoinedTiled(o: Owners, lo: nat, hi: nat, a: nat, b: nat)
    requires Tiled(o, lo, hi) && a in o.free && b in o.free && a + Full(o.free, a) == b
    ensures Tiled(o.(free := JoinFree(o.free, a, b)), lo, hi)
  {
    hide Tiles, SameBut;
    JoinedLayout(o, a, b);
    RetileJoin(LayoutOf(o), LayoutOf(o.(free := JoinFree(o.free, a, b))), Free(a), Free(b), Free(a), lo, hi);
  }

  lemma JoinTotal(m: Entries, a: nat, b: nat)
    requires a in m && b in m && a != b
    ensures Total(JoinFree(m, a, b)) == Total(m)
  {
    TotalRemove(m, b);
    TotalRemove(m - {b}, a);
    var rest := m - {b} - {a};
    assert JoinFree(m, a, b) == rest[a := (Full(m, a) + Full(m, b), 0)];
    TotalInsert(rest, a, (Full(m, a) + Full(m, b), 0));
  }

  lemma CutTotal(m: Entries, a: nat, full: nat)
    requires a in m && full <= Full(m, a) && (full < Full(m, a) ==> a + full !in m)
    ensures Total(CutFree(m, a, full)) == Total(m) - full
  {
    TotalRemove(m, a);
    if full < Full(m, a) { TotalInsert(m - {a}, a + full, (Full(m, a) - full, 0)); }
  }
}
