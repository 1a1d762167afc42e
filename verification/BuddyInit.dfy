/**
 * How `init_kalloc` (k-alloc.cc) cuts the physical memory ranges into aligned blocks.
 */
module BuddyInit {
  import opened Collections
  import opened Arithmetic
  import opened Dyadic
  import opened BuddyTiling
  import opened FreeLists
  import MemRange

  const MEM_AVAILABLE: int := 1

  // ---------------------------------------------------------------- appending a block

  function NewBlock(p: nat, order: nat, used: bool): (b: Pages)
    ensures |b| == Size(order)
  {
    [PageState(order, p, used)] + seq(Size(order) - 1, _ => ZERO)
  }

  lemma AppendInside(ps: Pages, order: nat, used: bool, h: int, x: int)
    requires Tiling(ps) && IsOrder(order)
    ensures Inside(ps + NewBlock(|ps|, order, used), h, x)
            <==> Inside(ps, h, x) || (h == |ps| && |ps| <= x < |ps| + Size(order))
  {
  }

  /** A new aligned block at the end extends the tiling. */
  lemma AppendTiling(ps: Pages, order: nat, used: bool)
    requires Tiling(ps) && IsOrder(order) && Aligned(|ps|, order)
    ensures Tiling(ps + NewBlock(|ps|, order, used))
  {
    var ps' := ps + NewBlock(|ps|, order, used);
    forall h | Head(ps', h) ensures GoodBlock(ps', h) {
      assert h < |ps| ==> Head(ps, h);
    }
    forall h, x | Inside(ps', h, x) && x != h ensures 0 <= x < |ps'| && ps'[x] == ZERO {
      AppendInside(ps, order, used, h, x);
    }
    forall x | 0 <= x < |ps'| ensures Covered(ps', x) {
      if x < |ps| {
        assert Covered(ps, x);
        var h :| Inside(ps, h, x);
        AppendInside(ps, order, used, h, x);
      } else {
        AppendInside(ps, order, used, |ps|, x);
      }
    }
  }

  lemma AppendFree(ps: Pages, order: nat, used: bool, x: int)
    requires Tiling(ps) && IsOrder(order)
    ensures PageFree(ps + NewBlock(|ps|, order, used), x)
            <==> PageFree(ps, x) || (!used && |ps| <= x < |ps| + Size(order))
  {
    var ps' := ps + NewBlock(|ps|, order, used);
    if PageFree(ps', x) {
      var h :| FreeHead(ps', h) && Inside(ps', h, x);
      AppendInside(ps, order, used, h, x);
      assert h < |ps| ==> FreeHead(ps, h);
    }
    if PageFree(ps, x) {
      var h :| FreeHead(ps, h) && Inside(ps, h, x);
      AppendInside(ps, order, used, h, x);
      assert FreeHead(ps', h);
    }
    if !used && |ps| <= x < |ps| + Size(order) {
      AppendInside(ps, order, used, |ps|, x);
      assert FreeHead(ps', |ps|);
    }
  }

  lemma AppendListed(ps: Pages, ls: Lists, order: nat, used: bool)
    requires Tiling(ps) && IsOrder(order) && Listed(ps, ls, -1)
    ensures Listed(ps + NewBlock(|ps|, order, used), if used then ls else PushBack(ls, order, |ps|), -1)
  {
    var ps' := ps + NewBlock(|ps|, order, used);
    var ls' := if used then ls else PushBack(ls, order, |ps|);
    assert !FreeHead(ps, |ps|);
    assert |ps| !in List(ls, order);
    PushDistinct(List(ls, order), |ps|);
    forall o, q | IsOrder(o)
      ensures q in List(ls', o) <==> FreeHead(ps', q) && ps'[q].order == o && q != -1
    {
      assert q in List(ls', o) <==> q in List(ls, o) || (!used && o == order && q == |ps|);
      assert FreeHead(ps', q) <==> FreeHead(ps, q) || (!used && q == |ps|);
    }
  }

  // ---------------------------------------------------------------- blocks against ranges

  ghost predicate PageRanges(rs: seq<MemRange.Range>, npages: nat) {
    && MemRange.Sorted(rs) && MemRange.NoEqualNeighbours(rs)
    && (forall i :: 0 <= i < |rs| ==> rs[i].addr % PAGESIZE == 0)
    && MemRange.Boundary(rs, npages * PAGESIZE)
  }

  /** Page `x` lies in range `k`. */
  predicate PageIn(rs: seq<MemRange.Range>, k: int, x: int) {
    MemRange.Holds(rs, k, x * PAGESIZE)
  }

  /** Each block lies in one range, and no free left half could have been twice as large. */
  ghost predicate Greedy(rs: seq<MemRange.Range>, ps: Pages) {
    && (forall k, p :: Head(ps, p) && PageIn(rs, k, p) ==>
          (p + Size(ps[p].order)) * PAGESIZE <= rs[k + 1].addr)
    && (forall k, p :: FreeHead(ps, p) && PageIn(rs, k, p) && ps[p].order < MAX_ORDER && Aligned(p, ps[p].order + 1) ==>
          (p + Size(ps[p].order + 1)) * PAGESIZE > rs[k + 1].addr)
  }

  ghost predicate FreeAsRanged(rs: seq<MemRange.Range>, ps: Pages) {
    forall k, x :: x < |ps| && PageIn(rs, k, x) ==> (PageFree(ps, x) <==> rs[k].kind == MEM_AVAILABLE)
  }

  /** Blocks cut greedily from ranges without equal neighbours are canonical. */
  lemma GreedyIsCanonical(rs: seq<MemRange.Range>, ps: Pages)
    requires PageRanges(rs, |ps|) && Tiling(ps) && Greedy(rs, ps) && FreeAsRanged(rs, ps)
    ensures Canonical(ps)
  {
    forall p ensures !Mergeable(ps, p) {
      if Mergeable(ps, p) {
        var o := ps[p].order;
        BuddyFacts(p, o);
        var b := Buddy(p, o);
        var lo := if p < b then p else b;
        NoFreePair(rs, ps, lo, o);
      }
    }
  }

  lemma NoFreePair(rs: seq<MemRange.Range>, ps: Pages, lo: nat, o: nat)
    requires PageRanges(rs, |ps|) && Tiling(ps) && Greedy(rs, ps) && FreeAsRanged(rs, ps)
    requires o < MAX_ORDER && Aligned(lo, o + 1) && MIN_ORDER <= o
    requires FreeHead(ps, lo) && ps[lo].order == o
    ensures !(FreeHead(ps, lo + Size(o)) && ps[lo + Size(o)].order == o)
  {
    var hi := lo + Size(o);
    if FreeHead(ps, hi) && ps[hi].order == o {
      var k := RangeOf(rs, |ps|, lo);
      assert Inside(ps, lo, lo) && Inside(ps, hi, hi);
      assert PageFree(ps, lo) && PageFree(ps, hi);
      assert hi * PAGESIZE < rs[k + 1].addr ==> PageIn(rs, k, hi);
      if hi * PAGESIZE < rs[k + 1].addr {
        assert false;
      } else {
        var k' := RangeOf(rs, |ps|, hi);
        assert rs[k + 1].addr == hi * PAGESIZE;
        SameRange(rs, k + 1, k', hi * PAGESIZE);
        assert false;
      }
    }
  }

  lemma SameRange(rs: seq<MemRange.Range>, i: nat, j: nat, a: nat)
    requires MemRange.Sorted(rs) && i < |rs| && rs[i].addr == a && MemRange.Holds(rs, j, a)
    ensures i == j
  {
  }

  lemma RangeOf(rs: seq<MemRange.Range>, npages: nat, x: nat) returns (k: nat)
    requires PageRanges(rs, npages) && x < npages
    ensures PageIn(rs, k, x)
  {
    var m :| 0 <= m < |rs| && rs[m].addr == npages * PAGESIZE;
    assert rs[m].addr <= MemRange.Limit(rs);
    k := MemRange.SomeRange(rs, x * PAGESIZE);
  }

  // ---------------------------------------------------------------- cutting one block

  /** A block of order `o` can be made at byte address `start` without passing `end`. */
  predicate Fits(start: nat, end: nat, o: nat) {
    start % Pow2(o) == 0 && start + Pow2(o) <= end
  }

  lemma FitsInPages(a: nat, start: nat, end: nat, o: nat)
    requires MIN_ORDER <= o && start == a * PAGESIZE
    ensures Fits(start, end, o) <==> Aligned(a, o) && (a + Size(o)) * PAGESIZE <= end
  {
    BytesOf(o);
    ScaleMod(PAGESIZE, a, Size(o));
  }

  /** Nothing has been recorded from page `a` on. */
  ghost predicate BlankFrom(ps: Pages, a: nat) {
    a <= |ps| && forall x :: a <= x < |ps| ==> ps[x] == ZERO
  }

  /** What has been cut so far: a tiling of the pages below `|ps|` that follows the ranges. */
  ghost predicate CutUpTo(rs: seq<MemRange.Range>, ps: Pages, ls: Lists) {
    Tiling(ps) && Listed(ps, ls, -1) && Greedy(rs, ps) && FreeAsRanged(rs, ps)
  }

  /** The first `a` pages have been cut into blocks, and the rest are blank. */
  ghost predicate CutTo(rs: seq<MemRange.Range>, ps: Pages, ls: Lists, a: nat) {
    BlankFrom(ps, a) && CutUpTo(rs, ps[..a], ls)
  }

  lemma PageFits(start: nat, end: nat)
    requires start % PAGESIZE == 0 && end % PAGESIZE == 0 && start < end
    ensures Fits(start, end, MIN_ORDER)
  {
    BytesOf(MIN_ORDER);
  }

  /** Cutting the largest block that fits keeps all of it. */
  lemma CutStep(rs: seq<MemRange.Range>, ps: Pages, ls: Lists, k: nat, order: nat)
    requires MemRange.Sorted(rs) && CutUpTo(rs, ps, ls) && IsOrder(order) && PageIn(rs, k, |ps|)
    requires Aligned(|ps|, order) && (|ps| + Size(order)) * PAGESIZE <= rs[k + 1].addr
    requires order < MAX_ORDER && Aligned(|ps|, order + 1) ==> (|ps| + Size(order + 1)) * PAGESIZE > rs[k + 1].addr
    ensures var used := rs[k].kind != MEM_AVAILABLE;
            CutUpTo(rs, ps + NewBlock(|ps|, order, used), if used then ls else PushBack(ls, order, |ps|))
  {
    var used := rs[k].kind != MEM_AVAILABLE;
    AppendTiling(ps, order, used);
    AppendListed(ps, ls, order, used);
    CutGreedy(rs, ps, k, order, used);
    CutFree(rs, ps, k, order);
  }

  lemma OneRange(rs: seq<MemRange.Range>, i: nat, j: nat, a: nat)
    requires MemRange.Sorted(rs) && MemRange.Holds(rs, i, a) && MemRange.Holds(rs, j, a)
    ensures i == j
  {
  }

  /** Block `p` fits in range `k`, and, if free, could not have been cut larger. */
  predicate CutRight(rs: seq<MemRange.Range>, ps: Pages, k: int, p: int)
    requires Head(ps, p) && PageIn(rs, k, p)
  {
    && (p + Size(ps[p].order)) * PAGESIZE <= rs[k + 1].addr
    && (!ps[p].used && ps[p].order < MAX_ORDER && Aligned(p, ps[p].order + 1) ==>
          (p + Size(ps[p].order + 1)) * PAGESIZE > rs[k + 1].addr)
  }

  lemma CutOld(rs: seq<MemRange.Range>, ps: Pages, order: nat, used: bool, k: int, p: int)
    requires Greedy(rs, ps) && Head(ps + NewBlock(|ps|, order, used), p) && PageIn(rs, k, p) && p != |ps|
    ensures CutRight(rs, ps + NewBlock(|ps|, order, used), k, p)
  {
    var ps' := ps + NewBlock(|ps|, order, used);
    assert Head(ps, p) && ps'[p] == ps[p];
    assert FreeHead(ps', p) <==> FreeHead(ps, p);
  }

  lemma CutNew(rs: seq<MemRange.Range>, ps: Pages, k: nat, order: nat, used: bool, k': int)
    requires MemRange.Sorted(rs) && IsOrder(order) && PageIn(rs, k, |ps|) && PageIn(rs, k', |ps|)
    requires (|ps| + Size(order)) * PAGESIZE <= rs[k + 1].addr
    requires order < MAX_ORDER && Aligned(|ps|, order + 1) ==> (|ps| + Size(order + 1)) * PAGESIZE > rs[k + 1].addr
    ensures Head(ps + NewBlock(|ps|, order, used), |ps|) && CutRight(rs, ps + NewBlock(|ps|, order, used), k', |ps|)
  {
    OneRange(rs, k, k', |ps| * PAGESIZE);
  }

  lemma CutGreedy(rs: seq<MemRange.Range>, ps: Pages, k: nat, order: nat, used: bool)
    requires MemRange.Sorted(rs) && Greedy(rs, ps) && IsOrder(order) && PageIn(rs, k, |ps|)
    requires (|ps| + Size(order)) * PAGESIZE <= rs[k + 1].addr
    requires order < MAX_ORDER && Aligned(|ps|, order + 1) ==> (|ps| + Size(order + 1)) * PAGESIZE > rs[k + 1].addr
    ensures Greedy(rs, ps + NewBlock(|ps|, order, used))
  {
    var ps' := ps + NewBlock(|ps|, order, used);
    forall k', p | Head(ps', p) && PageIn(rs, k', p) ensures CutRight(rs, ps', k', p) {
      if p == |ps| {
        CutNew(rs, ps, k, order, used, k');
      } else {
        CutOld(rs, ps, order, used, k', p);
      }
    }
  }

  lemma CutFree(rs: seq<MemRange.Range>, ps: Pages, k: nat, order: nat)
    requires MemRange.Sorted(rs) && Tiling(ps) && FreeAsRanged(rs, ps) && IsOrder(order) && PageIn(rs, k, |ps|)
    requires (|ps| + Size(order)) * PAGESIZE <= rs[k + 1].addr
    ensures FreeAsRanged(rs, ps + NewBlock(|ps|, order, rs[k].kind != MEM_AVAILABLE))
  {
    var used := rs[k].kind != MEM_AVAILABLE;
    var ps' := ps + NewBlock(|ps|, order, used);
    forall k', x | x < |ps'| && PageIn(rs, k', x)
      ensures PageFree(ps', x) <==> rs[k'].kind == MEM_AVAILABLE
    {
      AppendFree(ps, order, used, x);
      if x >= |ps| {
        assert PageIn(rs, k, x);
        OneRange(rs, k, k', x * PAGESIZE);
        assert !PageFree(ps, x);
      }
    }
  }

  /** The page array and the lists with the block of order `order` at page `a` recorded. */
  function CutPages(ps: Pages, a: nat, order: nat, used: bool): Pages
    requires a < |ps|
  {
    ps[a := PageState(order, a, used)]
  }

  function CutLists(ls: Lists, a: nat, order: nat, used: bool): Lists
    requires IsOrder(order)
  {
    if used then ls else PushBack(ls, order, a)
  }

  /** The same from byte address `addr`, the start of page `a`. */
  lemma CutAt(rs: seq<MemRange.Range>, ps: Pages, a: nat, ls: Lists, k: nat, addr: nat, order: nat)
    requires MemRange.Sorted(rs) && addr == a * PAGESIZE && MemRange.Holds(rs, k, addr)
    requires IsOrder(order) && rs[k + 1].addr <= |ps| * PAGESIZE && Fits(addr, rs[k + 1].addr, order)
    requires order < MAX_ORDER ==> !Fits(addr, rs[k + 1].addr, order + 1)
    requires CutTo(rs, ps, ls, a)
    ensures a + Size(order) <= |ps| && addr / PAGESIZE == a
    ensures var used := rs[k].kind != MEM_AVAILABLE;
            CutTo(rs, CutPages(ps, a, order, used), CutLists(ls, a, order, used), a + Size(order))
  {
    QuotientIs(addr, PAGESIZE, a, 0);
    FitsInPages(a, addr, rs[k + 1].addr, order);
    FitsInPages(a, addr, rs[k + 1].addr, order + 1);
    CutInPlace(rs, ps, a, ls, k, order);
  }

  lemma CutInPlace(rs: seq<MemRange.Range>, ps: Pages, a: nat, ls: Lists, k: nat, order: nat)
    requires MemRange.Sorted(rs) && IsOrder(order) && PageIn(rs, k, a) && rs[k + 1].addr <= |ps| * PAGESIZE
    requires CutTo(rs, ps, ls, a)
    requires Aligned(a, order) && (a + Size(order)) * PAGESIZE <= rs[k + 1].addr
    requires order < MAX_ORDER && Aligned(a, order + 1) ==> (a + Size(order + 1)) * PAGESIZE > rs[k + 1].addr
    ensures a + Size(order) <= |ps|
    ensures var used := rs[k].kind != MEM_AVAILABLE;
            CutTo(rs, CutPages(ps, a, order, used), CutLists(ls, a, order, used), a + Size(order))
  {
    CutStep(rs, ps[..a], ls, k, order);
    var used := rs[k].kind != MEM_AVAILABLE;
    var ps' := ps[a := PageState(order, a, used)];
    assert ps'[..a + Size(order)] == ps[..a] + NewBlock(a, order, used);
  }
}
