/**
 * Sizes, alignment and buddies (k-alloc.cc). Sizes are counted in 4096-byte pages.
 */
module Dyadic {
  import opened Collections

  const MIN_ORDER: nat := 12
  const MAX_ORDER: nat := 24
  const PAGESIZE: nat := 4096

  /** Pages in a block of the given order. */
  function Size(order: nat): (s: nat)
    ensures s > 0
  {
    if order <= MIN_ORDER then 1 else 2 * Size(order - 1)
  }

  predicate Aligned(p: nat, order: nat) {
    p % Size(order) == 0
  }

  /** Page index of the buddy of the block at page `p`. */
  function Buddy(p: nat, order: nat): int {
    if p % (2 * Size(order)) == 0 then p + Size(order) else p - Size(order)
  }

  lemma ModWitness(a: nat, d: nat) returns (m: nat)
    requires d > 0 && a % d == 0
    ensures a == m * d
  {
    m := a / d;
  }

  lemma NoSmallMultiple(k: int, d: int, e: int)
    requires d > 0 && k * d == e && -d < e < d
    ensures e == 0
  {
  }

  lemma DivMod(a: nat, d: nat)
    requires d > 0
    ensures a == (a / d) * d + a % d
  {
  }

  lemma MulMod(m: nat, d: nat)
    requires d > 0
    ensures (m * d) % d == 0
  {
    var a := m * d;
    DivMod(a, d);
    assert (m - a / d) * d == m * d - (a / d) * d;
    NoSmallMultiple(m - a / d, d, a % d);
  }

  /** Distinct multiples of `d` are at least `d` apart. */
  lemma Gap(a: nat, b: nat, d: nat)
    requires d > 0 && a % d == 0 && b % d == 0 && a < b
    ensures a + d <= b
  {
    var m := ModWitness(a, d);
    var n := ModWitness(b, d);
    assert n > m by {
      assert n <= m ==> n * d <= m * d;
    }
    assert (m + 1) * d <= n * d;
    assert (m + 1) * d == m * d + d;
  }

  lemma {:induction false} AlignedDown(p: nat, lo: nat, hi: nat)
    requires lo <= hi && Aligned(p, hi)
    ensures Aligned(p, lo)
    decreases hi
  {
    if lo < hi && MIN_ORDER < hi {
      var m := ModWitness(p, Size(hi));
      assert p == (2 * m) * Size(hi - 1);
      MulMod(2 * m, Size(hi - 1));
      AlignedDown(p, lo, hi - 1);
    }
  }

  lemma {:induction false} SizeMonotone(lo: nat, hi: nat)
    requires lo <= hi
    ensures Size(lo) <= Size(hi)
    decreases hi
  {
    if lo < hi {
      SizeMonotone(lo, hi - 1);
    }
  }

  /** A block aligned to its order is the left or the right half of an aligned block twice its size. */
  lemma HalfOf(p: nat, order: nat)
    requires Aligned(p, order) && MIN_ORDER <= order
    ensures Aligned(p, order + 1) ||
            (p >= Size(order) && Aligned(p - Size(order), order + 1) && !Aligned(p, order + 1))
  {
    var d := Size(order);
    var m := ModWitness(p, d);
    EvenOdd(m, d);
    MulMod(m / 2, 2 * d);
    if m % 2 == 1 && Aligned(p, order + 1) {
      Gap(p - d, p, 2 * d);
      assert false;
    }
  }

  lemma EvenOdd(m: nat, d: nat)
    ensures m % 2 == 0 ==> m * d == (m / 2) * (2 * d)
    ensures m % 2 == 1 ==> m * d == (m / 2) * (2 * d) + d
  {
  }

  lemma AlignedAdd(p: nat, order: nat)
    requires Aligned(p, order)
    ensures Aligned(p + Size(order), order)
  {
    var d := Size(order);
    var m := ModWitness(p, d);
    assert p + d == (m + 1) * d;
    MulMod(m + 1, d);
  }

  lemma AlignedSub(p: nat, order: nat)
    requires Aligned(p, order) && p >= Size(order)
    ensures Aligned(p - Size(order), order)
  {
    var d := Size(order);
    var m := ModWitness(p, d);
    assert p - d == (m - 1) * d;
    MulMod(m - 1, d);
  }

  /** The buddy is the other half; taking the buddy twice returns to the block. */
  lemma BuddyFacts(p: nat, order: nat)
    requires Aligned(p, order) && MIN_ORDER <= order
    ensures Buddy(p, order) >= 0 && Aligned(Buddy(p, order), order)
    ensures Buddy(Buddy(p, order), order) == p
    ensures if Aligned(p, order + 1) then Buddy(p, order) == p + Size(order)
            else Buddy(p, order) == p - Size(order) && Aligned(Buddy(p, order), order + 1)
  {
    HalfOf(p, order);
    if Aligned(p, order + 1) {
      AlignedAdd(p, order);
      HalfOf(p + Size(order), order);
      if Aligned(p + Size(order), order + 1) {
        Gap(p, p + Size(order), Size(order + 1));
        assert false;
      }
    } else {
      AlignedSub(p, order);
    }
  }

  // ---------------------------------------------------------------- sizes in bytes

  lemma {:induction false} BytesOf(order: nat)
    requires MIN_ORDER <= order
    ensures Pow2(order) == PAGESIZE * Size(order)
    decreases order
  {
    if order > MIN_ORDER {
      BytesOf(order - 1);
    }
  }

  lemma ScaleMod(c: nat, a: nat, d: nat)
    requires c > 0 && d > 0
    ensures (c * a) % (c * d) == c * (a % d)
  {
    var q, r := a / d, a % d;
    DivMod(a, d);
    var a', d' := c * a, c * d;
    assert d' > 0;
    DivMod(a', d');
    var q', r' := a' / d', a' % d';
    assert c * (q * d + r) == q * d' + c * r;
    assert (q - q') * d' == r' - c * r;
    assert 0 <= c * r < d';
    NoSmallMultiple(q - q', d', r' - c * r);
  }

  /** `buddy_pindex`, computed in bytes. */
  function BuddyPindex(p: nat, order: nat): int {
    var addr := p * PAGESIZE;
    if addr % Pow2(order + 1) == 0 then (addr + Pow2(order)) / PAGESIZE
    else (addr - Pow2(order)) / PAGESIZE
  }

  lemma BuddyPindexIsBuddy(p: nat, order: nat)
    requires MIN_ORDER <= order && Aligned(p, order)
    ensures BuddyPindex(p, order) == Buddy(p, order)
  {
    BytesOf(order);
    BytesOf(order + 1);
    ScaleMod(PAGESIZE, p, 2 * Size(order));
    BuddyFacts(p, order);
  }

  /** Some aligned block that fits in `npages` pages has its buddy at or beyond the end. */
  ghost predicate BuddyEscapes(npages: nat, p: nat, order: nat) {
    && MIN_ORDER <= order <= MAX_ORDER && Aligned(p, order) && p + Size(order) <= npages
    && Buddy(p, order) >= npages
  }

  /** Every buddy index `kfree` reads is in range exactly when memory is a multiple of 2^25 bytes. */
  lemma BuddiesInRange(npages: nat)
    ensures (forall p, order :: !BuddyEscapes(npages, p, order)) <==> npages % Size(MAX_ORDER + 1) == 0
  {
    var d := Size(MAX_ORDER + 1);
    if npages % d == 0 {
      forall p: nat, order: nat ensures !BuddyEscapes(npages, p, order) {
        if MIN_ORDER <= order <= MAX_ORDER && Aligned(p, order) && p + Size(order) <= npages {
          AlignedDown(npages, order + 1, MAX_ORDER + 1);
          BuddyFacts(p, order);
          if Aligned(p, order + 1) {
            Gap(p, npages, Size(order + 1));
          }
        }
      }
    } else {
      var p, order := EscapingBlock(npages, MAX_ORDER + 1);
      assert BuddyEscapes(npages, p, order);
    }
  }

  /** With the 30 MB the kernel is built for, the order-21 block at 28 MB is such a block. */
  lemma BuddyEscapesAt30MB()
    ensures BuddyEscapes(30 * 1024 * 1024 / PAGESIZE, 28 * 1024 * 1024 / PAGESIZE, 21)
  {
    assert Size(15) == 8 && Size(18) == 64 && Size(21) == 512;
  }

  /** The aligned block just below the end whose double would not fit. */
  lemma {:induction false} EscapingBlock(npages: nat, top: nat) returns (p: nat, order: nat)
    requires MIN_ORDER < top <= MAX_ORDER + 1 && npages % Size(top) != 0
    ensures MIN_ORDER <= order < top && BuddyEscapes(npages, p, order)
    decreases top
  {
    order := top - 1;
    if Aligned(npages, order) {
      HalfOf(npages, order);
      p := npages - Size(order);
      AlignedDown(p, order, top);
    } else {
      p, order := EscapingBlock(npages, order);
    }
  }

  /** Aligned blocks that meet are nested. */
  lemma Nested(p: nat, lo: nat, q: nat, hi: nat, x: nat)
    requires lo <= hi && Aligned(p, lo) && Aligned(q, hi)
    requires p <= x < p + Size(lo) && q <= x < q + Size(hi)
    ensures q <= p && p + Size(lo) <= q + Size(hi)
  {
    AlignedDown(q, lo, hi);
    SizeMonotone(lo, hi);
    if p < q {
      Gap(p, q, Size(lo));
    }
    AlignedAdd(q, hi);
    AlignedDown(q + Size(hi), lo, hi);
    if p < q + Size(hi) {
      Gap(p, q + Size(hi), Size(lo));
    }
  }
}

/**
 * The page-state array as a tiling of memory by aligned blocks, and the canonical form that
 * coalescing maintains.
 */
module BuddyTiling {
  import opened Dyadic

  datatype PageState = PageState(order: nat, pindex: nat, used: bool)

  const ZERO: PageState := PageState(0, 0, false)

  type Pages = seq<PageState>

  // ---------------------------------------------------------------- blocks

  predicate Head(ps: Pages, p: int) {
    0 <= p < |ps| && ps[p].order != 0
  }

  predicate FreeHead(ps: Pages, p: int) {
    Head(ps, p) && !ps[p].used
  }

  /** Page `x` belongs to the block headed by `p`. */
  predicate Inside(ps: Pages, p: int, x: int) {
    Head(ps, p) && p <= x < p + Size(ps[p].order)
  }

  ghost predicate Covered(ps: Pages, x: int) {
    exists p :: Inside(ps, p, x)
  }

  predicate GoodBlock(ps: Pages, p: int)
    requires Head(ps, p)
  {
    && MIN_ORDER <= ps[p].order <= MAX_ORDER
    && ps[p].pindex == p
    && Aligned(p, ps[p].order)
    && p + Size(ps[p].order) <= |ps|
  }

  /** Aligned blocks cover every page once; entries inside a block are zero. */
  ghost predicate Tiling(ps: Pages) {
    && (forall p :: Head(ps, p) ==> GoodBlock(ps, p))
    && (forall p, x :: Inside(ps, p, x) && x != p ==> ps[x] == ZERO)
    && (forall x :: 0 <= x < |ps| ==> Covered(ps, x))
  }

  /** Page `x` is free. */
  ghost predicate PageFree(ps: Pages, x: int) {
    exists p :: FreeHead(ps, p) && Inside(ps, p, x)
  }

  lemma OneOwner(ps: Pages, p: int, q: int, x: int)
    requires Tiling(ps) && Inside(ps, p, x) && Inside(ps, q, x)
    ensures p == q
  {
    assert p < q ==> Inside(ps, p, q);
    assert q < p ==> Inside(ps, q, p);
  }

  lemma PageFreeOwner(ps: Pages, p: int, x: int)
    requires Tiling(ps) && Inside(ps, p, x)
    ensures PageFree(ps, x) <==> FreeHead(ps, p)
  {
    if PageFree(ps, x) {
      var q :| FreeHead(ps, q) && Inside(ps, q, x);
      OneOwner(ps, p, q, x);
    }
  }

  // ---------------------------------------------------------------- canonical form

  /** `p` and its buddy are both free, of the same order, and small enough to merge. */
  predicate Mergeable(ps: Pages, p: int) {
    && FreeHead(ps, p) && ps[p].order < MAX_ORDER
    && var b := Buddy(p, ps[p].order);
       FreeHead(ps, b) && ps[b].order == ps[p].order
  }

  ghost predicate Canonical(ps: Pages) {
    forall p :: !Mergeable(ps, p)
  }

  /** Only `t` may still have to be merged with its buddy. */
  ghost predicate CanonicalBut(ps: Pages, t: int) {
    forall p :: Mergeable(ps, p) ==> p == t || Buddy(p, ps[p].order) == t
  }

  ghost predicate AllFree(ps: Pages, p: int, order: nat) {
    forall x :: p <= x < p + Size(order) ==> PageFree(ps, x)
  }

  function Parent(p: nat, order: nat): int {
    if Aligned(p, order + 1) then p else p - Size(order)
  }

  /** An aligned block of free pages that no larger aligned block of free pages contains. */
  ghost predicate MaximalFree(ps: Pages, p: nat, order: nat) {
    && MIN_ORDER <= order <= MAX_ORDER
    && Aligned(p, order)
    && AllFree(ps, p, order)
    && (order < MAX_ORDER ==> !AllFree(ps, Parent(p, order), order + 1))
  }

  /** All blocks that meet `[p, p + Size(order))` are smaller than `order`. */
  ghost predicate OnlySmaller(ps: Pages, p: int, order: nat) {
    forall q, x :: p <= x < p + Size(order) && Inside(ps, q, x) ==> ps[q].order < order
  }

  lemma InRange(ps: Pages, p: nat, order: nat)
    requires AllFree(ps, p, order)
    ensures forall x :: p <= x < p + Size(order) ==> Covered(ps, x)
  {
    forall x | p <= x < p + Size(order) ensures Covered(ps, x) {
      assert PageFree(ps, x);
    }
  }

  /** A half that is not itself a block is tiled by smaller blocks. */
  lemma HalfOnlySmaller(ps: Pages, h: nat, order: nat)
    requires Tiling(ps) && MIN_ORDER <= order && Aligned(h, order) && AllFree(ps, h, order)
    requires forall q, x :: h <= x < h + Size(order) && Inside(ps, q, x) ==> ps[q].order <= order
    requires !(FreeHead(ps, h) && ps[h].order == order)
    ensures OnlySmaller(ps, h, order)
  {
    forall q, x | h <= x < h + Size(order) && Inside(ps, q, x)
      ensures ps[q].order < order
    {
      if ps[q].order == order {
        Nested(q, order, h, order, x);
        assert PageFree(ps, x);
        PageFreeOwner(ps, q, x);
      }
    }
  }

  /** Free pages tiled only by blocks smaller than an aligned region contain two mergeable buddies. */
  lemma {:induction false} Saturated(ps: Pages, p: nat, order: nat)
    requires Tiling(ps) && MIN_ORDER <= order <= MAX_ORDER && Aligned(p, order)
    requires AllFree(ps, p, order) && OnlySmaller(ps, p, order)
    ensures !Canonical(ps)
    decreases order
  {
    InRange(ps, p, order);
    assert Covered(ps, p);
    var q :| Inside(ps, q, p);
    var o := order - 1;
    var r := p + Size(o);
    AlignedDown(p, o, order);
    AlignedAdd(p, o);
    if FreeHead(ps, p) && ps[p].order == o && FreeHead(ps, r) && ps[r].order == o {
      BuddyFacts(p, o);
      assert Mergeable(ps, p);
    } else {
      var h := if FreeHead(ps, p) && ps[p].order == o then r else p;
      assert AllFree(ps, h, o);
      HalfOnlySmaller(ps, h, o);
      Saturated(ps, h, o);
    }
  }

  /**
   * In a canonical tiling the free blocks are exactly the maximal aligned blocks of free pages,
   * so the set of free pages determines them.
   */
  lemma FreeBlocksAreMaximal(ps: Pages, p: nat, order: nat)
    requires Tiling(ps) && Canonical(ps)
    ensures FreeHead(ps, p) && ps[p].order == order <==> MaximalFree(ps, p, order)
  {
    if FreeHead(ps, p) && ps[p].order == order {
      forall x | p <= x < p + Size(order) ensures PageFree(ps, x) {
        assert Inside(ps, p, x);
      }
      if order < MAX_ORDER && AllFree(ps, Parent(p, order), order + 1) {
        BuddyPagesNotFree(ps, p, order);
      }
    }
    if MaximalFree(ps, p, order) {
      MaximalIsBlock(ps, p, order);
    }
  }

  lemma BuddyPagesNotFree(ps: Pages, p: nat, order: nat)
    requires Tiling(ps) && Canonical(ps) && FreeHead(ps, p) && ps[p].order == order < MAX_ORDER
    ensures !AllFree(ps, Parent(p, order), order + 1)
  {
    var par, b := Parent(p, order), Buddy(p, order);
    BuddyFacts(p, order);
    if AllFree(ps, par, order + 1) {
      assert AllFree(ps, b, order);
      forall q, x | b <= x < b + Size(order) && Inside(ps, q, x)
        ensures ps[q].order <= order
      {
        if ps[q].order > order {
          AlignedDown(q, order + 1, ps[q].order);
          Nested(par, order + 1, q, ps[q].order, x);
          assert Inside(ps, p, p) && Inside(ps, q, p);
          OneOwner(ps, p, q, p);
        }
      }
      assert !Mergeable(ps, p);
      HalfOnlySmaller(ps, b, order);
      Saturated(ps, b, order);
    }
  }

  /** A free block larger than `order` that holds `p` makes the whole parent region free. */
  lemma LargerOwner(ps: Pages, p: nat, order: nat, q: int)
    requires Tiling(ps) && FreeHead(ps, q) && Inside(ps, q, p) && MIN_ORDER <= order < ps[q].order && Aligned(p, order)
    ensures AllFree(ps, Parent(p, order), order + 1)
  {
    BuddyFacts(p, order);
    Nested(Parent(p, order), order + 1, q, ps[q].order, p);
    forall x | Parent(p, order) <= x < Parent(p, order) + Size(order + 1) ensures PageFree(ps, x) {
      assert Inside(ps, q, x);
    }
  }

  lemma MaximalIsBlock(ps: Pages, p: nat, order: nat)
    requires Tiling(ps) && Canonical(ps) && MaximalFree(ps, p, order)
    ensures FreeHead(ps, p) && ps[p].order == order
  {
    assert PageFree(ps, p);
    var q :| FreeHead(ps, q) && Inside(ps, q, p);
    var o := ps[q].order;
    if o > order {
      LargerOwner(ps, p, order, q);
      assert false;
    } else {
      Nested(q, o, p, order, p);
      if o < order {
        forall q', x | p <= x < p + Size(order) && Inside(ps, q', x)
          ensures ps[q'].order < order
        {
          if ps[q'].order >= order {
            Nested(p, order, q', ps[q'].order, x);
            OneOwner(ps, q, q', p);
          }
        }
        Saturated(ps, p, order);
      }
    }
  }

  /** Two canonical tilings with the same free pages have the same free blocks. */
  lemma SameFreePagesSameBlocks(ps: Pages, qs: Pages)
    requires Tiling(ps) && Canonical(ps) && Tiling(qs) && Canonical(qs)
    requires forall x :: PageFree(ps, x) <==> PageFree(qs, x)
    ensures forall p :: FreeHead(ps, p) <==> FreeHead(qs, p)
    ensures forall p :: FreeHead(ps, p) ==> ps[p].order == qs[p].order
  {
    forall p: nat, o: nat ensures MaximalFree(ps, p, o) <==> MaximalFree(qs, p, o) {
      assert AllFree(ps, p, o) <==> AllFree(qs, p, o);
      assert AllFree(ps, Parent(p, o), o + 1) <==> AllFree(qs, Parent(p, o), o + 1);
    }
    forall p | 0 <= p
      ensures FreeHead(ps, p) <==> FreeHead(qs, p)
      ensures FreeHead(ps, p) ==> ps[p].order == qs[p].order
    {
      if FreeHead(ps, p) {
        FreeBlocksAreMaximal(ps, p, ps[p].order);
        FreeBlocksAreMaximal(qs, p, ps[p].order);
      }
      if FreeHead(qs, p) {
        FreeBlocksAreMaximal(ps, p, qs[p].order);
        FreeBlocksAreMaximal(qs, p, qs[p].order);
      }
    }
  }

  // ---------------------------------------------------------------- splitting and merging

  /** Break the block at `p` in half, as `kalloc` does. */
  function SplitPages(ps: Pages, p: nat): Pages
    requires Head(ps, p) && MIN_ORDER < ps[p].order && p + Size(ps[p].order - 1) < |ps|
  {
    var o := ps[p].order - 1;
    var q := p + Size(o);
    ps[p := ps[p].(order := o)][q := PageState(o, q, false)]
  }

  ghost predicate Splittable(ps: Pages, p: nat) {
    Tiling(ps) && FreeHead(ps, p) && MIN_ORDER < ps[p].order && p + Size(ps[p].order - 1) < |ps|
  }

  lemma SplitInside(ps: Pages, p: nat, h: int, x: int)
    requires Splittable(ps, p)
    ensures var o := ps[p].order - 1;
            var q := p + Size(o);
            Inside(SplitPages(ps, p), h, x) <==>
            if h == p then p <= x < q else if h == q then q <= x < q + Size(o) else Inside(ps, h, x)
  {
  }

  lemma SplitGood(ps: Pages, p: nat, h: int)
    requires Splittable(ps, p) && Head(SplitPages(ps, p), h)
    ensures GoodBlock(SplitPages(ps, p), h)
  {
    var o := ps[p].order - 1;
    var q := p + Size(o);
    assert Head(ps, p) && (h != p && h != q ==> Head(ps, h));
    AlignedDown(p, o, o + 1);
    AlignedAdd(p, o);
  }

  lemma SplitInterior(ps: Pages, p: nat, h: int, x: int)
    requires Splittable(ps, p) && Inside(SplitPages(ps, p), h, x) && x != h
    ensures 0 <= x < |ps| && SplitPages(ps, p)[x] == ZERO
  {
    var q := p + Size(ps[p].order - 1);
    SplitInside(ps, p, h, x);
    var g := if h == q then p else h;
    assert Inside(ps, g, x) && x != g;
    assert ps[x] == ZERO;
    if x == q {
      assert Inside(ps, p, q);
      OneOwner(ps, g, p, q);
    }
  }

  lemma SplitCovers(ps: Pages, p: nat, h: int, x: int)
    requires Splittable(ps, p) && Inside(ps, h, x)
    ensures var q := p + Size(ps[p].order - 1);
            Inside(SplitPages(ps, p), if h == p && x >= q then q else h, x)
  {
    var q := p + Size(ps[p].order - 1);
    assert Inside(ps, p, q);
    SplitInside(ps, p, if h == p && x >= q then q else h, x);
  }

  lemma SplitPageFree(ps: Pages, p: nat, x: int)
    requires Splittable(ps, p)
    ensures PageFree(SplitPages(ps, p), x) <==> PageFree(ps, x)
  {
    var ps' := SplitPages(ps, p);
    var q := p + Size(ps[p].order - 1);
    if PageFree(ps, x) {
      var h :| FreeHead(ps, h) && Inside(ps, h, x);
      SplitCovers(ps, p, h, x);
    }
    if PageFree(ps', x) {
      var h :| FreeHead(ps', h) && Inside(ps', h, x);
      SplitInside(ps, p, h, x);
      assert Inside(ps, if h == q then p else h, x);
    }
  }

  lemma SplitTiling(ps: Pages, p: nat)
    requires Splittable(ps, p)
    ensures Tiling(SplitPages(ps, p))
    ensures forall x :: PageFree(SplitPages(ps, p), x) <==> PageFree(ps, x)
  {
    var ps' := SplitPages(ps, p);
    forall h | Head(ps', h) ensures GoodBlock(ps', h) {
      SplitGood(ps, p, h);
    }
    forall h, x | Inside(ps', h, x) && x != h ensures 0 <= x < |ps| && ps'[x] == ZERO {
      SplitInterior(ps, p, h, x);
    }
    forall x | 0 <= x < |ps'| ensures Covered(ps', x) {
      assert Covered(ps, x);
      var h :| Inside(ps, h, x);
      SplitCovers(ps, p, h, x);
    }
    forall x ensures PageFree(ps', x) <==> PageFree(ps, x) {
      SplitPageFree(ps, p, x);
    }
  }

  /** Coalesce the free buddies at `lo` and `lo + Size`, as `kfree` does. */
  function MergePages(ps: Pages, lo: nat): Pages
    requires Head(ps, lo) && lo + Size(ps[lo].order) < |ps|
  {
    var o := ps[lo].order;
    ps[lo + Size(o) := ZERO][lo := ps[lo].(order := o + 1)]
  }

  ghost predicate MergeableAt(ps: Pages, lo: nat) {
    && Tiling(ps) && FreeHead(ps, lo) && ps[lo].order < MAX_ORDER && Aligned(lo, ps[lo].order + 1)
    && FreeHead(ps, lo + Size(ps[lo].order)) && ps[lo + Size(ps[lo].order)].order == ps[lo].order
  }

  lemma MergeInside(ps: Pages, lo: nat, h: int, x: int)
    requires MergeableAt(ps, lo)
    ensures var o := ps[lo].order;
            var hi := lo + Size(o);
            Inside(MergePages(ps, lo), h, x) <==>
            if h == lo then lo <= x < hi + Size(o) else h != hi && Inside(ps, h, x)
  {
  }

  lemma MergeInterior(ps: Pages, lo: nat, h: int, x: int)
    requires MergeableAt(ps, lo) && Inside(MergePages(ps, lo), h, x) && x != h
    ensures 0 <= x < |ps| && MergePages(ps, lo)[x] == ZERO
  {
    var hi := lo + Size(ps[lo].order);
    MergeInside(ps, lo, h, x);
    if x != hi {
      assert Inside(ps, if h == lo && x > hi then hi else h, x);
    }
  }

  lemma MergePageFree(ps: Pages, lo: nat, x: int)
    requires MergeableAt(ps, lo)
    ensures PageFree(MergePages(ps, lo), x) <==> PageFree(ps, x)
  {
    var ps' := MergePages(ps, lo);
    var hi := lo + Size(ps[lo].order);
    if PageFree(ps, x) {
      var h :| FreeHead(ps, h) && Inside(ps, h, x);
      MergeInside(ps, lo, if h == hi then lo else h, x);
    }
    if PageFree(ps', x) {
      var h :| FreeHead(ps', h) && Inside(ps', h, x);
      MergeInside(ps, lo, h, x);
      assert Inside(ps, if h == lo && x >= hi then hi else h, x);
    }
  }

  lemma MergeTiling(ps: Pages, lo: nat)
    requires MergeableAt(ps, lo)
    ensures Tiling(MergePages(ps, lo))
    ensures forall x :: PageFree(MergePages(ps, lo), x) <==> PageFree(ps, x)
  {
    var ps' := MergePages(ps, lo);
    var hi := lo + Size(ps[lo].order);
    forall h | Head(ps', h) ensures GoodBlock(ps', h) {
      assert Head(ps, h);
    }
    forall h, x | Inside(ps', h, x) && x != h ensures 0 <= x < |ps| && ps'[x] == ZERO {
      MergeInterior(ps, lo, h, x);
    }
    forall x | 0 <= x < |ps'| ensures Covered(ps', x) {
      assert Covered(ps, x);
      var h :| Inside(ps, h, x);
      MergeInside(ps, lo, if h == hi then lo else h, x);
    }
    forall x ensures PageFree(ps', x) <==> PageFree(ps, x) {
      MergePageFree(ps, lo, x);
    }
  }
}
