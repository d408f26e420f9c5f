/** Byte ranges under changing ownership: when a family of blocks tiles an address range,
    and which local changes keep it tiled. */
module AllocLayout {
  import opened Arith
  import opened Sums

  /** The bytes from `lo` up to `lo + len`. */
  datatype Block = Block(lo: nat, len: nat)

  predicate Has(b: Block, x: int) {
    b.lo <= x < b.lo + b.len
  }

  predicate Apart(b: Block, c: Block) {
    b.lo + b.len <= c.lo || c.lo + c.len <= b.lo
  }

  /** Padding that moves `addr` up to a multiple of `align`. */
  function CalcPadding(addr: nat, align: nat): (p: nat)
    requires align > 0
    ensures p < align && (addr + p) % align == 0
  {
    var rem := addr % align;
    PaddingAligns(addr, align);
    if rem == 0 then 0 else align - rem
  }

  lemma PaddingAligns(addr: nat, align: nat)
    requires align > 0
    ensures var rem := addr % align;
            (addr + if rem == 0 then 0 else align - rem) % align == 0
  {
    var d, rem := addr / align, addr % align;
    if rem != 0 {
      DivModUnique(addr + (align - rem), d + 1, 0, align);
    }
  }

  /** No smaller padding would do. */
  lemma PaddingIsLeast(addr: nat, align: nat, q: nat)
    requires align > 0 && (addr + q) % align == 0
    ensures CalcPadding(addr, align) <= q
  {
    var d, rem := addr / align, addr % align;
    if q < CalcPadding(addr, align) {
      DivModUnique(addr + q, d, rem + q, align);
    }
  }

  /** Who holds a block: the free map, the allocated map, a call that has carved it out and
      not recorded it yet, or a call that has withdrawn it and not given it back yet. Each
      key names an entry of the map in question. */
  datatype Key = Free(a: nat) | Alloc(a: nat) | Taking(a: nat) | Giving(a: nat)

  type Layout = imap<Key, Block>

  /** The blocks are non-empty, pairwise disjoint, and cover exactly `lo` up to `hi`. */
  ghost predicate Tiles(m: Layout, lo: nat, hi: nat) {
    && (forall k :: k in m ==> m[k].len > 0)
    && (forall k, l :: k in m && l in m && k != l ==> Apart(m[k], m[l]))
    && (forall x :: lo <= x < hi <==> Covered(m, x))
  }

  ghost predicate Covered(m: Layout, x: int) {
    exists k :: k in m && Has(m[k], x)
  }

  ghost predicate CoveredBy(m: Layout, ks: set<Key>, x: int) {
    exists k :: k in ks && k in m && Has(m[k], x)
  }

  /** The entries `olds` of `m` are replaced by the entries `news` of `m'`, over the same
      bytes; everything else stays. */
  ghost predicate Replaces(m: Layout, m': Layout, olds: set<Key>, news: set<Key>) {
    && (forall k :: k in olds ==> k in m)
    && (forall k :: k in news ==> k in m')
    && (forall k :: k !in olds && k !in news ==> (k in m <==> k in m') && (k in m ==> m'[k] == m[k]))
    && (forall k :: k in news && k in m ==> k in olds)
    && (forall k :: k in olds && k in m' ==> k in news)
    && (forall k :: k in news ==> m'[k].len > 0)
    && (forall k, l :: k in news && l in news && k != l ==> Apart(m'[k], m'[l]))
    && (forall x :: CoveredBy(m, olds, x) <==> CoveredBy(m', news, x))
  }

  lemma SharedByte(b: Block, c: Block) returns (x: int)
    requires b.len > 0 && c.len > 0 && !Apart(b, c)
    ensures Has(b, x) && Has(c, x)
  {
    x := if b.lo < c.lo then c.lo else b.lo;
  }

  lemma ReplacedApart(m: Layout, m': Layout, olds: set<Key>, news: set<Key>, lo: nat, hi: nat, k: Key, l: Key)
    requires Tiles(m, lo, hi) && Replaces(m, m', olds, news)
    requires k in news && l in m' && l !in news
    ensures Apart(m'[k], m'[l])
  {
    assert l in m && l !in olds && m'[l] == m[l];
    if !Apart(m'[k], m'[l]) {
      var x := SharedByte(m'[k], m'[l]);
      assert CoveredBy(m', news, x);
    }
  }

  lemma ReplacedCovers(m: Layout, m': Layout, olds: set<Key>, news: set<Key>, lo: nat, hi: nat, x: int)
    requires Tiles(m, lo, hi) && Replaces(m, m', olds, news)
    ensures Covered(m, x) <==> Covered(m', x)
  {
    if Covered(m, x) {
      var k :| k in m && Has(m[k], x);
      if k in olds {
        assert CoveredBy(m, olds, x);
        var k' :| k' in news && k' in m' && Has(m'[k'], x);
      } else {
        assert k in m' && m'[k] == m[k];
      }
    }
    if Covered(m', x) {
      var k :| k in m' && Has(m'[k], x);
      if k in news {
        assert CoveredBy(m', news, x);
        var k' :| k' in olds && k' in m && Has(m[k'], x);
      } else {
        assert k in m && m'[k] == m[k];
      }
    }
  }

  /** Replacing blocks by others over the same bytes keeps the range tiled. */
  lemma Retile(m: Layout, m': Layout, olds: set<Key>, news: set<Key>, lo: nat, hi: nat)
    requires Tiles(m, lo, hi) && Replaces(m, m', olds, news)
    ensures Tiles(m', lo, hi)
  {
    forall k, l | k in m' && l in m' && k != l ensures Apart(m'[k], m'[l]) {
      if k in news && l !in news {
        ReplacedApart(m, m', olds, news, lo, hi, k, l);
      } else if l in news && k !in news {
        ReplacedApart(m, m', olds, news, lo, hi, l, k);
      }
    }
    forall x ensures Covered(m, x) <==> Covered(m', x) {
      ReplacedCovers(m, m', olds, news, lo, hi, x);
    }
  }

  /** `m'` differs from `m` at most in the given keys. */
  ghost predicate SameBut(m: Layout, m': Layout, ks: set<Key>) {
    forall k :: k !in ks ==> (k in m <==> k in m') && (k in m ==> m'[k] == m[k])
  }

  /** A block changes hands. */
  lemma RetileMove(m: Layout, m': Layout, k: Key, l: Key, lo: nat, hi: nat)
    requires Tiles(m, lo, hi) && SameBut(m, m', {k, l}) && k != l
    requires k in m && k !in m' && l !in m && l in m' && m'[l] == m[k]
    ensures Tiles(m', lo, hi)
  {
    forall x ensures CoveredBy(m, {k}, x) <==> CoveredBy(m', {l}, x) {
      assert Has(m[k], x) == Has(m'[l], x);
    }
    Retile(m, m', {k}, {l}, lo, hi);
  }

  /** A block is cut in two. */
  lemma RetileSplit(m: Layout, m': Layout, k: Key, l1: Key, l2: Key, lo: nat, hi: nat)
    requires Tiles(m, lo, hi) && SameBut(m, m', {k, l1, l2}) && k != l1 && k != l2 && l1 != l2
    requires k in m && k !in m' && l1 !in m && l2 !in m && l1 in m' && l2 in m'
    requires m'[l1].len > 0 && m'[l2].len > 0
    requires m'[l1].lo == m[k].lo && m'[l2].lo == m'[l1].lo + m'[l1].len && m'[l1].len + m'[l2].len == m[k].len
    ensures Tiles(m', lo, hi)
  {
    forall x ensures CoveredBy(m, {k}, x) <==> CoveredBy(m', {l1, l2}, x) {
      assert Has(m[k], x) == (Has(m'[l1], x) || Has(m'[l2], x));
      if CoveredBy(m', {l1, l2}, x) { assert Has(m'[l1], x) || Has(m'[l2], x); }
      if Has(m'[l1], x) { assert l1 in {l1, l2}; }
      if Has(m'[l2], x) { assert l2 in {l1, l2}; }
      if Has(m[k], x) { assert k in {k}; }
    }
    Retile(m, m', {k}, {l1, l2}, lo, hi);
  }

  /** Two blocks that touch become one, possibly under the key of one of them. */
  lemma RetileJoin(m: Layout, m': Layout, k1: Key, k2: Key, l: Key, lo: nat, hi: nat)
    requires Tiles(m, lo, hi) && SameBut(m, m', {k1, k2, l}) && k1 != k2
    requires k1 in m && k2 in m && l in m' && (l in m ==> l == k1 || l == k2)
    requires (k1 in m' ==> l == k1) && (k2 in m' ==> l == k2)
    requires m[k1].lo + m[k1].len == m[k2].lo && m'[l] == Block(m[k1].lo, m[k1].len + m[k2].len)
    ensures Tiles(m', lo, hi)
  {
    forall x ensures CoveredBy(m, {k1, k2}, x) <==> CoveredBy(m', {l}, x) {
      assert Has(m'[l], x) == (Has(m[k1], x) || Has(m[k2], x));
      if CoveredBy(m, {k1, k2}, x) { assert Has(m[k1], x) || Has(m[k2], x); }
      if Has(m[k1], x) { assert k1 in {k1, k2}; }
      if Has(m[k2], x) { assert k2 in {k1, k2}; }
      if Has(m'[l], x) { assert l in {l}; }
    }
    Retile(m, m', {k1, k2}, {l}, lo, hi);
  }

  /** Entries of a tiling that share a byte are the same entry. */
  lemma OneOwner(m: Layout, lo: nat, hi: nat, k: Key, l: Key, x: int)
    requires Tiles(m, lo, hi) && k in m && l in m && Has(m[k], x) && Has(m[l], x)
    ensures k == l
  {
    assert k == l || Apart(m[k], m[l]);
  }

  // ---------------------------------------------------------------- sums of entries

  /** Entries are pairs of a size and a padding. */
  type Entries = map<nat, (nat, nat)>

  function Full(m: Entries, a: nat): nat {
    if a in m then m[a].0 + m[a].1 else 0
  }

  ghost function Total(m: Entries): nat {
    SetSum(m.Keys, a => Full(m, a))
  }

  lemma TotalInsert(m: Entries, a: nat, e: (nat, nat))
    requires a !in m
    ensures Total(m[a := e]) == Total(m) + e.0 + e.1
  {
    var m' := m[a := e];
    assert m'.Keys == m.Keys + {a};
    SetSumAdd(m.Keys, x => Full(m', x), a);
    SetSumCongruence(m.Keys, x => Full(m', x), x => Full(m, x));
  }

  lemma TotalRemove(m: Entries, a: nat)
    requires a in m
    ensures Total(m - {a}) == Total(m) - Full(m, a)
  {
    var m' := m - {a};
    assert m == m'[a := m[a]];
    TotalInsert(m', a, m[a]);
  }
}
