/**
 * The buddy allocator (k-alloc.cc): splitting, coalescing and initialisation over the
 * page-state array and the per-order free lists.
 */
module FreeLists {
  import opened Collections
  import opened Dyadic
  import opened BuddyTiling

  const NORDERS: nat := MAX_ORDER - MIN_ORDER + 1

  /** One list of block heads per order. */
  type Lists = ls: seq<seq<nat>> | |ls| == NORDERS witness seq(NORDERS, _ => [])

  predicate IsOrder(o: int) {
    MIN_ORDER <= o <= MAX_ORDER
  }

  function List(ls: Lists, o: nat): seq<nat>
    requires IsOrder(o)
  {
    ls[o - MIN_ORDER]
  }

  function PushBack(ls: Lists, o: nat, p: nat): Lists
    requires IsOrder(o)
  {
    ls[o - MIN_ORDER := List(ls, o) + [p]]
  }

  function PopFront(ls: Lists, o: nat): Lists
    requires IsOrder(o) && List(ls, o) != []
  {
    ls[o - MIN_ORDER := List(ls, o)[1..]]
  }

  function Erase(ls: Lists, o: nat, p: nat): Lists
    requires IsOrder(o)
  {
    ls[o - MIN_ORDER := Without(List(ls, o), p)]
  }

  /** Each list holds exactly the free heads of its order, once; `hand` is kept off the lists. */
  ghost predicate Listed(ps: Pages, ls: Lists, hand: int) {
    && (forall o, p :: IsOrder(o) ==>
          (p in List(ls, o) <==> FreeHead(ps, p) && ps[p].order == o && p != hand))
    && (forall o :: IsOrder(o) ==> Distinct(List(ls, o)))
  }

  lemma PopDistinct(l: seq<nat>)
    requires Distinct(l) && l != []
    ensures Distinct(l[1..])
    ensures forall x :: x in l[1..] <==> x in l && x != l[0]
  {
  }

  lemma PushDistinct(l: seq<nat>, p: nat)
    requires Distinct(l) && p !in l
    ensures Distinct(l + [p])
    ensures forall x :: x in l + [p] <==> x in l || x == p
  {
  }

  // ---------------------------------------------------------------- blocks in use

  predicate UsedHead(ps: Pages, p: int) {
    Head(ps, p) && ps[p].used
  }

  /** The blocks in use, with their orders. */
  ghost function Used(ps: Pages): map<nat, nat> {
    map p: nat | p < |ps| && UsedHead(ps, p) :: ps[p].order
  }

  /** The invariant of the allocator between calls. */
  ghost predicate Consistent(ps: Pages, ls: Lists) {
    Tiling(ps) && Canonical(ps) && Listed(ps, ls, -1)
  }

  /**
   * The blocks in use determine the whole page array: once every block allocated since has been
   * freed, in whatever order, the array is what it was.
   */
  lemma UsedDeterminesPages(ps: Pages, qs: Pages)
    requires Tiling(ps) && Canonical(ps) && Tiling(qs) && Canonical(qs) && |ps| == |qs|
    requires Used(ps) == Used(qs)
    ensures ps == qs
  {
    forall p | 0 <= p ensures UsedHead(ps, p) <==> UsedHead(qs, p) {
      assert UsedHead(ps, p) <==> p in Used(ps);
      assert UsedHead(qs, p) <==> p in Used(qs);
    }
    forall x ensures PageFree(ps, x) <==> PageFree(qs, x) {
      if PageFree(ps, x) {
        FreeUnlessUsed(ps, qs, x);
      }
      if PageFree(qs, x) {
        FreeUnlessUsed(qs, ps, x);
      }
    }
    SameFreePagesSameBlocks(ps, qs);
    forall x | 0 <= x < |ps| ensures ps[x] == qs[x] {
      SameEntry(ps, qs, x);
    }
  }

  lemma FreeUnlessUsed(ps: Pages, qs: Pages, x: int)
    requires Tiling(ps) && Tiling(qs) && |ps| == |qs| && Used(ps) == Used(qs) && PageFree(ps, x)
    ensures PageFree(qs, x)
  {
    var p :| FreeHead(ps, p) && Inside(ps, p, x);
    assert Covered(qs, x);
    var q :| Inside(qs, q, x);
    if qs[q].used {
      assert q in Used(qs) && Used(ps)[q] == qs[q].order;
      assert Inside(ps, q, x);
      OneOwner(ps, p, q, x);
    }
  }

  lemma SameEntry(ps: Pages, qs: Pages, x: nat)
    requires Tiling(ps) && Tiling(qs) && |ps| == |qs| && x < |ps| && Used(ps) == Used(qs)
    requires forall p :: FreeHead(ps, p) <==> FreeHead(qs, p)
    requires forall p :: FreeHead(ps, p) ==> ps[p].order == qs[p].order
    ensures ps[x] == qs[x]
  {
    assert x in Used(ps) <==> UsedHead(ps, x);
    assert x in Used(qs) <==> UsedHead(qs, x);
    assert Head(ps, x) <==> Head(qs, x);
    if Head(ps, x) {
      assert ps[x].order == qs[x].order;
    } else {
      assert Covered(ps, x) && Covered(qs, x);
      var p :| Inside(ps, p, x);
      var q :| Inside(qs, q, x);
    }
  }

  /** The same blocks in use and the same free pages, however the free pages are cut. */
  ghost predicate Reshaped(ps: Pages, ps': Pages) {
    Used(ps') == Used(ps) && forall x :: PageFree(ps', x) <==> PageFree(ps, x)
  }

  /** What one completed call does to the blocks in use. */
  datatype Call = Alloc(p: nat, order: nat) | Free(p: nat) | Nothing

  function Apply(used: map<nat, nat>, c: Call): map<nat, nat> {
    match c
    case Alloc(p, o) => used[p := o]
    case Free(p) => used - {p}
    case Nothing => used
  }

  function ApplyAll(used: map<nat, nat>, cs: seq<Call>): map<nat, nat> {
    if cs == [] then used else Apply(ApplyAll(used, cs[..|cs| - 1]), cs[|cs| - 1])
  }

  // ---------------------------------------------------------------- the splitting step

  function SplitLists(ls: Lists, o: nat): Lists
    requires IsOrder(o) && MIN_ORDER < o && List(ls, o) != []
  {
    var t := List(ls, o)[0];
    PushBack(PushBack(PopFront(ls, o), o - 1, t), o - 1, t + Size(o - 1))
  }

  lemma SplitListsFacts(ls: Lists, o: nat)
    requires IsOrder(o) && MIN_ORDER < o && List(ls, o) != []
    ensures List(SplitLists(ls, o), o - 1) == List(ls, o - 1) + [List(ls, o)[0], List(ls, o)[0] + Size(o - 1)]
    ensures forall o' :: MIN_ORDER <= o' < o - 1 ==> List(SplitLists(ls, o), o') == List(ls, o')
  {
  }

  lemma SplitCanonical(ps: Pages, p: nat)
    requires Splittable(ps, p) && CanonicalBut(ps, p)
    ensures CanonicalBut(SplitPages(ps, p), p)
  {
    var ps' := SplitPages(ps, p);
    var o := ps[p].order - 1;
    var q := p + Size(o);
    AlignedDown(p, o, o + 1);
    BuddyFacts(p, o);
    forall x | Mergeable(ps', x) ensures x == p || Buddy(x, ps'[x].order) == p {
      SplitGood(ps, p, x);
      BuddyFacts(x, ps'[x].order);
      var b := Buddy(x, ps'[x].order);
      assert x != p && x != q && b != p && b != q ==> Mergeable(ps, x);
    }
  }

  lemma SplitUsed(ps: Pages, p: nat)
    requires Splittable(ps, p)
    ensures Used(SplitPages(ps, p)) == Used(ps)
  {
    var q := p + Size(ps[p].order - 1);
    assert Inside(ps, p, q);
    assert forall h :: UsedHead(SplitPages(ps, p), h) <==> UsedHead(ps, h);
  }

  /** What is on the lists after a split. */
  lemma SplitMembers(ls: Lists, o: nat, o': nat, p: nat)
    requires IsOrder(o) && MIN_ORDER < o && List(ls, o) != [] && IsOrder(o') && Distinct(List(ls, o))
    ensures var t := List(ls, o)[0];
            p in List(SplitLists(ls, o), o') <==>
              (p in List(ls, o') && !(o' == o && p == t)) || (o' == o - 1 && (p == t || p == t + Size(o - 1)))
  {
    PopDistinct(List(ls, o));
  }

  lemma SplitDistinct(ls: Lists, o: nat, o': nat)
    requires IsOrder(o) && MIN_ORDER < o && List(ls, o) != [] && IsOrder(o')
    requires Distinct(List(ls, o)) && Distinct(List(ls, o'))
    requires o' == o - 1 ==> List(ls, o)[0] !in List(ls, o') && List(ls, o)[0] + Size(o - 1) !in List(ls, o')
    ensures Distinct(List(SplitLists(ls, o), o'))
  {
    var t := List(ls, o)[0];
    PopDistinct(List(ls, o));
    if o' == o - 1 {
      PushDistinct(List(ls, o'), t);
      PushDistinct(List(ls, o') + [t], t + Size(o - 1));
    }
  }

  /** The free heads after a split. */
  lemma SplitHeads(ps: Pages, t: nat, p: int)
    requires Splittable(ps, t)
    ensures var o, ps' := ps[t].order - 1, SplitPages(ps, t);
            var q := t + Size(o);
            && !Head(ps, q)
            && (FreeHead(ps', p) <==> FreeHead(ps, p) || p == q)
            && (FreeHead(ps', p) ==> ps'[p].order == if p == t || p == q then o else ps[p].order)
  {
    assert Inside(ps, t, t + Size(ps[t].order - 1));
  }

  lemma SplitListed(ps: Pages, ls: Lists, o: nat)
    requires IsOrder(o) && MIN_ORDER < o && List(ls, o) != [] && Listed(ps, ls, -1)
    requires Splittable(ps, List(ls, o)[0])
    ensures Listed(SplitPages(ps, List(ls, o)[0]), SplitLists(ls, o), -1)
  {
    var t := List(ls, o)[0];
    assert t in List(ls, o);
    SplitHeads(ps, t, t);
    var ps', ls' := SplitPages(ps, t), SplitLists(ls, o);
    forall o', p | IsOrder(o') ensures p in List(ls', o') <==> FreeHead(ps', p) && ps'[p].order == o' && p != -1 {
      SplitHeads(ps, t, p);
      if p >= 0 {
        SplitMembers(ls, o, o', p);
      }
    }
    forall o' | IsOrder(o') ensures Distinct(List(ls', o')) {
      SplitDistinct(ls, o, o');
    }
  }

  /** One turn of the loop that breaks up larger blocks. */
  lemma SplitStep(ps: Pages, ls: Lists, o: nat)
    requires IsOrder(o) && MIN_ORDER < o && List(ls, o) != []
    requires Tiling(ps) && Listed(ps, ls, -1) && CanonicalBut(ps, List(ls, o)[0])
    ensures Splittable(ps, List(ls, o)[0])
    ensures var t := List(ls, o)[0];
            var ps', ls' := SplitPages(ps, t), SplitLists(ls, o);
            && Tiling(ps') && Listed(ps', ls', -1) && CanonicalBut(ps', t) && Reshaped(ps, ps')
  {
    var t := List(ls, o)[0];
    assert t in List(ls, o);
    assert Splittable(ps, t);
    SplitTiling(ps, t);
    SplitListed(ps, ls, o);
    SplitCanonical(ps, t);
    SplitUsed(ps, t);
  }

  /** Blocks have been broken up so that the first of order `o` can be taken. */
  ghost predicate Ready(ps0: Pages, ps: Pages, ls: Lists, o: nat) {
    && IsOrder(o) && List(ls, o) != []
    && Tiling(ps) && Listed(ps, ls, -1) && CanonicalBut(ps, List(ls, o)[0]) && Reshaped(ps0, ps)
  }

  // ---------------------------------------------------------------- taking a block

  lemma TakeStep(ps: Pages, ls: Lists, o: nat)
    requires IsOrder(o) && List(ls, o) != []
    requires Tiling(ps) && Listed(ps, ls, -1) && CanonicalBut(ps, List(ls, o)[0])
    ensures FreeHead(ps, List(ls, o)[0]) && ps[List(ls, o)[0]].order == o
    ensures var t := List(ls, o)[0];
            var ps' := ps[t := ps[t].(used := true)];
            && Consistent(ps', PopFront(ls, o))
            && Used(ps') == Used(ps)[t := o]
            && forall x :: PageFree(ps', x) <==> PageFree(ps, x) && !(t <= x < t + Size(o))
  {
    var t := List(ls, o)[0];
    assert t in List(ls, o);
    assert FreeHead(ps, t);
    var ps' := ps[t := ps[t].(used := true)];
    Repaint(ps, t, true);
    TakeListed(ps, ls, o);
    forall x ensures !Mergeable(ps', x) {
      assert Mergeable(ps', x) ==> Mergeable(ps, x);
    }
    forall x ensures PageFree(ps', x) <==> PageFree(ps, x) && !(t <= x < t + Size(o)) {
      RepaintFree(ps, t, true, x);
    }
    assert forall h :: UsedHead(ps', h) <==> UsedHead(ps, h) || h == t;
  }

  lemma TakeListed(ps: Pages, ls: Lists, o: nat)
    requires IsOrder(o) && List(ls, o) != [] && Listed(ps, ls, -1) && FreeHead(ps, List(ls, o)[0])
    ensures var t := List(ls, o)[0];
            Listed(ps[t := ps[t].(used := true)], PopFront(ls, o), -1)
  {
    var t := List(ls, o)[0];
    assert t in List(ls, o);
    PopDistinct(List(ls, o));
    var ps', ls' := ps[t := ps[t].(used := true)], PopFront(ls, o);
    forall o', q | IsOrder(o')
      ensures q in List(ls', o') <==> FreeHead(ps', q) && ps'[q].order == o' && q != -1
    {
      assert q in List(ls', o') <==> q in List(ls, o') && !(o' == o && q == t);
      assert q in List(ls, o') <==> FreeHead(ps, q) && ps[q].order == o';
      assert FreeHead(ps', q) <==> FreeHead(ps, q) && q != t;
    }
  }

  /** Changing only whether a block is in use keeps the tiling. */
  lemma Repaint(ps: Pages, t: nat, used: bool)
    requires Tiling(ps) && Head(ps, t)
    ensures Tiling(ps[t := ps[t].(used := used)])
  {
    var ps' := ps[t := ps[t].(used := used)];
    assert forall h, x :: Inside(ps', h, x) <==> Inside(ps, h, x);
    forall x | 0 <= x < |ps'| ensures Covered(ps', x) {
      assert Covered(ps, x);
      var h :| Inside(ps, h, x);
      assert Inside(ps', h, x);
    }
    forall h | Head(ps', h) ensures GoodBlock(ps', h) {
      assert Head(ps, h);
    }
  }

  lemma RepaintFree(ps: Pages, t: nat, used: bool, x: int)
    requires Tiling(ps) && Head(ps, t)
    ensures PageFree(ps[t := ps[t].(used := used)], x)
            <==> if Inside(ps, t, x) then !used else PageFree(ps, x)
  {
    var ps' := ps[t := ps[t].(used := used)];
    Repaint(ps, t, used);
    if Inside(ps, t, x) {
      assert Inside(ps', t, x);
      PageFreeOwner(ps', t, x);
    } else {
      if PageFree(ps, x) {
        var h :| FreeHead(ps, h) && Inside(ps, h, x);
        assert FreeHead(ps', h) && Inside(ps', h, x);
      }
      if PageFree(ps', x) {
        var h :| FreeHead(ps', h) && Inside(ps', h, x);
        assert FreeHead(ps, h) && Inside(ps, h, x);
      }
    }
  }

  // ---------------------------------------------------------------- freeing and coalescing

  /** The state `kfree` works on: block `p` is free but not yet on a list. */
  ghost predicate InHand(ps: Pages, ls: Lists, p: int) {
    Tiling(ps) && FreeHead(ps, p) && Listed(ps, ls, p) && CanonicalBut(ps, p)
  }

  lemma ReleaseStep(ps: Pages, ls: Lists, p: nat)
    requires Consistent(ps, ls) && UsedHead(ps, p)
    ensures var ps' := ps[p := ps[p].(used := false)];
            && InHand(ps', ls, p)
            && Used(ps') == Used(ps) - {p}
            && forall x :: PageFree(ps', x) <==> PageFree(ps, x) || Inside(ps, p, x)
  {
    var ps' := ps[p := ps[p].(used := false)];
    Repaint(ps, p, false);
    forall o, q | IsOrder(o)
      ensures q in List(ls, o) <==> FreeHead(ps', q) && ps'[q].order == o && q != p
    {
      assert FreeHead(ps', q) <==> FreeHead(ps, q) || q == p;
    }
    assert forall h :: UsedHead(ps', h) <==> UsedHead(ps, h) && h != p;
    forall x | Mergeable(ps', x) ensures x == p || Buddy(x, ps'[x].order) == p {
      assert x != p && Buddy(x, ps'[x].order) != p ==> Mergeable(ps, x);
    }
    forall x ensures PageFree(ps', x) <==> PageFree(ps, x) || Inside(ps, p, x) {
      RepaintFree(ps, p, false, x);
    }
  }

  lemma MergeStep(ps: Pages, ls: Lists, p: nat)
    requires InHand(ps, ls, p) && Mergeable(ps, p)
    ensures var b := Buddy(p, ps[p].order);
            var lo := if p < b then p else b;
            && b >= 0 && MergeableAt(ps, lo)
            && var ps' := MergePages(ps, lo);
            && InHand(ps', Erase(ls, ps[p].order, b), lo)
            && ps'[lo].order == ps[p].order + 1
            && Reshaped(ps, ps')
  {
    var o := ps[p].order;
    var b := Buddy(p, o);
    BuddyFacts(p, o);
    var lo := if p < b then p else b;
    MergeTiling(ps, lo);
    MergeListed(ps, ls, p);
    MergeCanonical(ps, p);
    MergeUsed(ps, lo);
  }

  lemma MergeUsed(ps: Pages, lo: nat)
    requires MergeableAt(ps, lo)
    ensures Used(MergePages(ps, lo)) == Used(ps)
  {
    assert forall h :: UsedHead(MergePages(ps, lo), h) <==> UsedHead(ps, h);
  }

  lemma MergeListed(ps: Pages, ls: Lists, p: nat)
    requires InHand(ps, ls, p) && Mergeable(ps, p) && Buddy(p, ps[p].order) >= 0
    requires var b := Buddy(p, ps[p].order); MergeableAt(ps, if p < b then p else b)
    requires var b, o := Buddy(p, ps[p].order), ps[p].order; (p < b && b == p + Size(o)) || (b < p && p == b + Size(o))
    ensures var b := Buddy(p, ps[p].order);
            var lo := if p < b then p else b;
            Listed(MergePages(ps, lo), Erase(ls, ps[p].order, b), lo)
  {
    var o, b := ps[p].order, Buddy(p, ps[p].order);
    var lo := if p < b then p else b;
    var ps', ls' := MergePages(ps, lo), Erase(ls, o, b);
    WithoutDistinct(List(ls, o), b);
    forall o', q | IsOrder(o')
      ensures q in List(ls', o') <==> FreeHead(ps', q) && ps'[q].order == o' && q != lo
    {
      assert q in List(ls', o') <==> q in List(ls, o') && !(o' == o && q == b);
      assert q != p && q != b ==> (FreeHead(ps', q) <==> FreeHead(ps, q));
    }
  }

  lemma MergeCanonical(ps: Pages, p: nat)
    requires Tiling(ps) && CanonicalBut(ps, p) && Mergeable(ps, p) && Buddy(p, ps[p].order) >= 0
    requires var b := Buddy(p, ps[p].order); MergeableAt(ps, if p < b then p else b)
    requires var b, o := Buddy(p, ps[p].order), ps[p].order; (p < b && b == p + Size(o)) || (b < p && p == b + Size(o))
    ensures var b := Buddy(p, ps[p].order);
            var lo := if p < b then p else b;
            CanonicalBut(MergePages(ps, lo), lo)
  {
    var b := Buddy(p, ps[p].order);
    var lo := if p < b then p else b;
    var ps' := MergePages(ps, lo);
    forall x | Mergeable(ps', x) ensures x == lo || Buddy(x, ps'[x].order) == lo {
      assert x != lo && Buddy(x, ps'[x].order) != lo ==> Mergeable(ps, x);
    }
  }

  lemma CanonicalUnless(ps: Pages, p: nat)
    requires Tiling(ps) && CanonicalBut(ps, p)
    ensures Canonical(ps) || Mergeable(ps, p)
  {
    if !Canonical(ps) {
      var x :| Mergeable(ps, x);
      BuddyFacts(x, ps[x].order);
    }
  }

  /** Nothing left to merge with: back on its list, the block completes a consistent state. */
  lemma ReturnStep(ps: Pages, ls: Lists, p: nat)
    requires InHand(ps, ls, p) && !Mergeable(ps, p)
    ensures Consistent(ps, PushBack(ls, ps[p].order, p))
  {
    var o := ps[p].order;
    assert p !in List(ls, o);
    PushDistinct(List(ls, o), p);
    CanonicalUnless(ps, p);
  }
}

module Buddy {
  import opened Collections
  import opened Dyadic
  import opened BuddyTiling
  import opened FreeLists
  import opened BuddyInit
  import MemRange

  datatype Pointer = Null | Ptr(pa: nat)

  // ---------------------------------------------------------------- the order of a request

  /** Index of the most significant one bit of `x`, plus one. */
  function Msb(x: nat): nat {
    if x == 0 then 0 else 1 + Msb(x / 2)
  }

  function OrderOf(n: nat): nat {
    if n == 0 then 0 else Msb(n - 1)
  }

  /** One more than the largest `unsigned int`. */
  const UINT_END: nat := 0x1_0000_0000

  /**
   * The order `kalloc` looks for. The size passes through an `int`, which keeps its low 32 bits;
   * `msb` reads them as unsigned again.
   */
  function RequestOrder(sz: nat): nat {
    var sz := if sz < Pow2(MIN_ORDER) then Pow2(MIN_ORDER) else sz;
    var order := OrderOf(sz % UINT_END);
    if order < MIN_ORDER then MIN_ORDER else order
  }

  lemma {:induction false} MsbBounds(x: nat)
    ensures x < Pow2(Msb(x))
    ensures x > 0 ==> Pow2(Msb(x) - 1) <= x
  {
    if x > 0 {
      MsbBounds(x / 2);
    }
  }

  /** The requested order is the least one, from `MIN_ORDER` up, whose blocks hold `sz` bytes. */
  lemma RequestOrderIsLeast(sz: nat)
    requires sz < UINT_END
    ensures var o := RequestOrder(sz);
            MIN_ORDER <= o && sz <= Pow2(o) && (o > MIN_ORDER ==> Pow2(o - 1) < sz)
  {
    assert Pow2(MIN_ORDER) == 4096 by { BytesOf(MIN_ORDER); }
    var s := if sz < Pow2(MIN_ORDER) then Pow2(MIN_ORDER) else sz;
    assert s % UINT_END == s;
    MsbBounds(s - 1);
    Pow2Monotone(OrderOf(s), MIN_ORDER);
  }

  /** A block that can be handed out holds the request if and only if the size fits in 32 bits. */
  lemma BlockHoldsRequest(sz: nat)
    requires RequestOrder(sz) <= MAX_ORDER
    ensures sz <= Pow2(RequestOrder(sz)) <==> sz < UINT_END
  {
    if sz < UINT_END {
      RequestOrderIsLeast(sz);
    } else {
      Pow2Monotone(RequestOrder(sz), MAX_ORDER);
      BytesOf(MAX_ORDER);
    }
  }

  /** A request for one byte more than 4 GB is taken for one of a single page. */
  lemma TruncatedRequest()
    ensures RequestOrder(UINT_END + 1) == MIN_ORDER
  {
    assert Pow2(MIN_ORDER) == 4096 by { BytesOf(MIN_ORDER); }
    assert (UINT_END + 1) % UINT_END == 1;
  }

  lemma {:induction false} Pow2Monotone(m: nat, n: nat)
    ensures m <= n ==> Pow2(m) <= Pow2(n)
    decreases n
  {
    if m < n {
      Pow2Monotone(m, n - 1);
    }
  }

  // ---------------------------------------------------------------- the allocator

  /** The largest order of block that can be made at `start`, or -1. */
  method FindMaxOrder(start: nat, end: nat) returns (order: int)
    ensures order == -1 || (IsOrder(order) && Fits(start, end, order))
    ensures forall o :: IsOrder(o) && order < o ==> !Fits(start, end, o)
  {
    order := MAX_ORDER;
    while order >= MIN_ORDER
      invariant MIN_ORDER - 1 <= order <= MAX_ORDER
      invariant forall o :: IsOrder(o) && order < o ==> !Fits(start, end, o)
    {
      if Fits(start, end, order) {
        return;
      }
      order := order - 1;
    }
    order := -1;
  }

  /** Some free block is large enough for a request of order `o`. */
  ghost predicate Available(ps: Pages, o: nat) {
    o <= MAX_ORDER && exists p :: FreeHead(ps, p) && o <= ps[p].order
  }

  /** Block `p` of order `o` has been taken out of the free pages of `ps`. */
  ghost predicate Taken(ps: Pages, ps': Pages, p: nat, o: nat) {
    && Aligned(p, o)
    && p !in Used(ps)
    && Used(ps') == Used(ps)[p := o]
    && (forall x :: p <= x < p + Size(o) ==> PageFree(ps, x))
    && (forall x :: PageFree(ps', x) <==> PageFree(ps, x) && !(p <= x < p + Size(o)))
  }

  /** Block `p` has been given back. */
  ghost predicate Released(ps: Pages, ps': Pages, p: nat) {
    && Used(ps') == Used(ps) - {p}
    && forall x :: PageFree(ps', x) <==> PageFree(ps, x) || Inside(ps, p, x)
  }

  datatype Request = Get(sz: nat) | Give(ptr: Pointer)

  /** `kfree` asserts that its argument is page-aligned, and indexes the page array with it. */
  predicate Admissible(request: Request, npages: nat) {
    request.Give? && request.ptr.Ptr? ==> request.ptr.pa % PAGESIZE == 0 && request.ptr.pa / PAGESIZE < npages
  }

  /** The call that a request comes to, in a state with pages `ps`. */
  ghost predicate Answers(ps: Pages, request: Request, call: Call) {
    match request
    case Get(sz) =>
      if sz == 0 || !Available(ps, RequestOrder(sz)) then call == Nothing
      else
        && call.Alloc? && call.order == RequestOrder(sz) && Aligned(call.p, call.order)
        && forall x :: call.p <= x < call.p + Size(call.order) ==> PageFree(ps, x)
    case Give(ptr) => call == if ptr.Ptr? && ptr.pa / PAGESIZE in Used(ps) then Free(ptr.pa / PAGESIZE) else Nothing
  }

  class Allocator {
    const pages: array<PageState>
    var lists: Lists

    ghost predicate Valid()
      reads this, pages
    {
      Consistent(pages[..], lists)
    }

    /** Cut the physical memory ranges into blocks; available ones go on the free lists. */
    constructor (npages: nat, ranges: seq<MemRange.Range>)
      requires PageRanges(ranges, npages)
      ensures Valid() && fresh(pages) && pages.Length == npages
      ensures forall x: nat :: x < npages ==>
                (PageFree(pages[..], x) <==> MemRange.TypeAt(ranges, x * PAGESIZE) == MEM_AVAILABLE)
    {
      pages := new PageState[npages](_ => ZERO);
      lists := seq(NORDERS, _ => []);
      new;
      assert pages[..0] == [];
      assert CutUpTo(ranges, pages[..0], lists);
      assert CutTo(ranges, pages[..], lists, 0);
      ghost var m :| 0 <= m < |ranges| && ranges[m].addr == npages * PAGESIZE;
      var k := 0;
      ghost var a := 0;
      while ranges[k].addr < npages * PAGESIZE
        invariant 0 <= k <= m && ranges[k].addr == a * PAGESIZE && a <= npages
        invariant Whole(CutTo(ranges, pages[..], lists, a))
        decreases m - k
      {
        assert ranges[k + 1].addr <= ranges[m].addr;
        a := CutRange(ranges, k, a);
        k := k + 1;
      }
      assert a == npages;
      assert pages[..npages] == pages[..];
      GreedyIsCanonical(ranges, pages[..]);
      forall x: nat | x < npages
        ensures PageFree(pages[..], x) <==> MemRange.TypeAt(ranges, x * PAGESIZE) == MEM_AVAILABLE
      {
        var i := RangeOf(ranges, npages, x);
        MemRange.TypeAtIs(ranges, i, x * PAGESIZE);
      }
    }

    /** Cut range `k`, which starts at page `a0`, into the largest blocks that fit. */
    method CutRange(ranges: seq<MemRange.Range>, k: nat, ghost a0: nat) returns (ghost a: nat)
      requires PageRanges(ranges, pages.Length) && k < |ranges| - 1 && ranges[k + 1].addr <= pages.Length * PAGESIZE
      requires ranges[k].addr == a0 * PAGESIZE
      requires CutTo(ranges, pages[..], lists, a0)
      modifies this, pages
      ensures ranges[k + 1].addr == a * PAGESIZE && a <= pages.Length
      ensures Whole(CutTo(ranges, pages[..], lists, a))
    {
      var addr, last := ranges[k].addr, ranges[k + 1].addr;
      a := a0;
      while addr < last
        invariant ranges[k].addr <= addr == a * PAGESIZE <= last && Whole(CutTo(ranges, pages[..], lists, a))
        decreases last - addr
      {
        var order;
        order, a := CutNext(ranges, k, a, addr);
        if order > 0 {
          addr := addr + Pow2(order);
        } else {
          break;
        }
      }
    }

    /** Cut the largest block that fits at `addr`; there always is one. */
    method CutNext(ranges: seq<MemRange.Range>, k: nat, ghost a: nat, addr: nat) returns (order: int, ghost a': nat)
      requires PageRanges(ranges, pages.Length) && k < |ranges| - 1 && ranges[k + 1].addr <= pages.Length * PAGESIZE
      requires ranges[k].addr <= addr < ranges[k + 1].addr && addr == a * PAGESIZE
      requires Whole(CutTo(ranges, pages[..], lists, a))
      modifies this, pages
      ensures order > 0 && addr + Pow2(order) == a' * PAGESIZE <= ranges[k + 1].addr && a' <= pages.Length
      ensures Whole(CutTo(ranges, pages[..], lists, a'))
    {
      PageFits(addr, ranges[k + 1].addr);
      order := FindMaxOrder(addr, ranges[k + 1].addr);
      BytesOf(order);
      CutBlock(ranges, k, a, addr, order);
      a' := a + Size(order);
    }

    /** Record the block of order `order` at byte address `addr`, the start of page `a`. */
    method CutBlock(ranges: seq<MemRange.Range>, k: nat, ghost a: nat, addr: nat, order: nat)
      requires MemRange.Sorted(ranges) && addr == a * PAGESIZE && MemRange.Holds(ranges, k, addr)
      requires ranges[k + 1].addr <= pages.Length * PAGESIZE
      requires IsOrder(order) && Fits(addr, ranges[k + 1].addr, order)
      requires order < MAX_ORDER ==> !Fits(addr, ranges[k + 1].addr, order + 1)
      requires Whole(CutTo(ranges, pages[..], lists, a))
      modifies this, pages
      ensures a + Size(order) <= pages.Length
      ensures Whole(CutTo(ranges, pages[..], lists, a + Size(order)))
    {
      CutAt(ranges, pages[..], a, lists, k, addr, order);
      Record(addr / PAGESIZE, order, ranges[k].kind != MEM_AVAILABLE);
    }

    method Record(pindex: nat, order: nat, used: bool)
      requires pindex < pages.Length && IsOrder(order)
      modifies this, pages
      ensures pages[..] == CutPages(old(pages[..]), pindex, order, used)
      ensures lists == CutLists(old(lists), pindex, order, used)
    {
      pages[pindex] := PageState(order, pindex, used);
      if !used {
        lists := PushBack(lists, order, pindex);
      }
    }

    /** Least order from `order` up with a free block, or -1. */
    method MinLargerOrder(order: nat) returns (r: int)
      requires IsOrder(order)
      ensures r == -1 || order <= r <= MAX_ORDER
      ensures r == -1 ==> forall o :: order <= o <= MAX_ORDER ==> List(lists, o) == []
      ensures r != -1 ==> List(lists, r) != [] && forall o :: order <= o < r ==> List(lists, o) == []
    {
      r := order;
      while List(lists, r) == []
        invariant order <= r <= MAX_ORDER
        invariant forall o :: order <= o < r ==> List(lists, o) == []
        decreases MAX_ORDER - r
      {
        r := r + 1;
        if r > MAX_ORDER {
          return -1;
        }
      }
    }

    /** Break the first free block of order `larger` in half. */
    method SplitFront(ghost ps0: Pages, larger: nat)
      requires MIN_ORDER < larger && Ready(ps0, pages[..], lists, larger)
      modifies this, pages
      ensures lists == SplitLists(old(lists), larger)
      ensures old(List(lists, larger - 1)) == [] ==> Ready(ps0, pages[..], lists, larger - 1)
    {
      ghost var ps := pages[..];
      SplitStep(ps, lists, larger);
      var target := List(lists, larger)[0];
      assert target in List(lists, larger);
      lists := PopFront(lists, larger);
      pages[target] := pages[target].(order := pages[target].order - 1);
      lists := PushBack(lists, larger - 1, target);
      var pindex := target + Size(pages[target].order);
      pages[pindex] := PageState(pages[target].order, pindex, false);
      lists := PushBack(lists, pages[pindex].order, pindex);
      assert pages[..] == SplitPages(ps, target);
      SplitListsFacts(old(lists), larger);
    }

    /** Break up blocks until there is a free block of order `order`. */
    method BreakUp(ghost ps0: Pages, order: nat, cur0: nat)
      requires Valid() && ps0 == pages[..] && MIN_ORDER <= order <= cur0 <= MAX_ORDER && List(lists, cur0) != []
      requires forall o :: order <= o < cur0 ==> List(lists, o) == []
      modifies this, pages
      ensures Ready(ps0, pages[..], lists, order)
    {
      ghost var cur := cur0;
      while List(lists, order) == []
        invariant order <= cur <= MAX_ORDER && Ready(ps0, pages[..], lists, cur)
        invariant forall o :: order <= o < cur ==> List(lists, o) == []
        decreases cur
      {
        var larger := MinLargerOrder(order);
        assert larger == cur;
        SplitListsFacts(lists, larger);
        SplitFront(ps0, larger);
        cur := larger - 1;
      }
    }

    /** Take the first free block of order `order`. */
    method TakeFront(ghost ps0: Pages, order: nat) returns (p: nat)
      requires Ready(ps0, pages[..], lists, order)
      modifies this, pages
      ensures Valid() && Taken(ps0, pages[..], p, order)
    {
      ghost var ps := pages[..];
      TakeStep(ps, lists, order);
      p := List(lists, order)[0];
      lists := PopFront(lists, order);
      pages[p] := pages[p].(used := true);
      assert pages[..] == ps[p := ps[p].(used := true)];
      TakenFrom(ps0, ps, pages[..], p, order);
    }

    method Carve(ghost ps0: Pages, order: nat, cur: nat) returns (p: nat)
      requires Valid() && ps0 == pages[..] && MIN_ORDER <= order <= cur <= MAX_ORDER && List(lists, cur) != []
      requires forall o :: order <= o < cur ==> List(lists, o) == []
      modifies this, pages
      ensures Valid() && Taken(ps0, pages[..], p, order)
    {
      BreakUp(ps0, order, cur);
      p := TakeFront(ps0, order);
    }

    /** Allocate a block of order `order`; returns its first page, or -1. */
    method AllocateOrder(ghost ps: Pages, order: nat) returns (p: int)
      requires Valid() && ps == pages[..] && IsOrder(order)
      modifies this, pages
      ensures Valid()
      ensures p == -1 || p >= 0
      ensures p == -1 <==> !Available(ps, order)
      ensures p == -1 ==> pages[..] == ps && lists == old(lists)
      ensures p != -1 ==> Taken(ps, pages[..], p, order)
    {
      var cur := MinLargerOrder(order);
      NoneAvailable(ps, lists, order, cur);
      if cur < 0 {
        p := -1;
      } else {
        p := Carve(ps, order, cur);
      }
    }

    /** Allocate at least `sz` contiguous bytes. */
    method Kalloc(sz: nat) returns (r: Pointer)
      requires Valid()
      modifies this, pages
      ensures Valid()
      ensures r.Null? <==> sz == 0 || !Available(old(pages[..]), RequestOrder(sz))
      ensures r.Null? ==> pages[..] == old(pages[..]) && lists == old(lists)
      ensures r.Ptr? ==> r.pa % PAGESIZE == 0 && Taken(old(pages[..]), pages[..], r.pa / PAGESIZE, RequestOrder(sz))
    {
      if sz == 0 {
        return Null;
      }
      var order := RequestOrder(sz);
      if order > MAX_ORDER {
        return Null;
      }
      var p := AllocateOrder(pages[..], order);
      if p == -1 {
        return Null;
      }
      r := Ptr(p * PAGESIZE);
      assert r.pa / PAGESIZE == p;
    }

    /** Merge the block in hand at `p` with its buddy `b`; returns the head of the merged block. */
    method Coalesce(p: nat, b: nat) returns (base: nat)
      requires InHand(pages[..], lists, p) && Mergeable(pages[..], p) && b == Buddy(p, pages[p].order)
      modifies this, pages
      ensures InHand(pages[..], lists, base) && pages[base].order == old(pages[p].order) + 1
      ensures Reshaped(old(pages[..]), pages[..])
    {
      ghost var ps := pages[..];
      MergeStep(ps, lists, p);
      BuddyFacts(p, pages[p].order);
      var toMerge := if p > b then p else b;
      base := if p > b then b else p;
      lists := Erase(lists, pages[b].order, b);
      pages[toMerge] := ZERO;
      pages[base] := pages[base].(order := pages[base].order + 1);
      assert pages[..] == MergePages(ps, base);
    }

    /** Free the block at physical address `ptr`; a pointer that heads no block in use is ignored. */
    method Kfree(ptr: Pointer)
      requires Valid() && (ptr.Ptr? ==> ptr.pa % PAGESIZE == 0 && ptr.pa / PAGESIZE < pages.Length)
      modifies this, pages
      ensures Valid()
      ensures ptr.Null? || !old(UsedHead(pages[..], ptr.pa / PAGESIZE)) ==>
                pages[..] == old(pages[..]) && lists == old(lists)
      ensures ptr.Ptr? && old(UsedHead(pages[..], ptr.pa / PAGESIZE)) ==>
                Released(old(pages[..]), pages[..], ptr.pa / PAGESIZE)
    {
      if ptr.Null? {
        return;
      }
      var p := ptr.pa / PAGESIZE;
      ghost var ps := pages[..];
      NotUsed(ps, p);
      if !pages[p].used {
        return;
      }
      ReleaseStep(ps, lists, p);
      pages[p] := pages[p].(used := false);
      assert pages[..] == ps[p := ps[p].(used := false)];
      while true
        invariant InHand(pages[..], lists, p)
        invariant Used(pages[..]) == Used(ps) - {ptr.pa / PAGESIZE}
        invariant forall x :: PageFree(pages[..], x) <==> PageFree(ps, x) || Inside(ps, ptr.pa / PAGESIZE, x)
        decreases MAX_ORDER - pages[p].order
      {
        BuddyPindexIsBuddy(p, pages[p].order);
        BuddyFacts(p, pages[p].order);
        var b := BuddyPindex(p, pages[p].order);
        if b >= pages.Length || pages[b].used || pages[b].order != pages[p].order
          || pages[p].order == MAX_ORDER
        {
          break;
        }
        p := Coalesce(p, b);
      }
      ReturnStep(pages[..], lists, p);
      lists := PushBack(lists, pages[p].order, p);
    }

    /** Serve one request; `call` is what it comes to. */
    method Serve(request: Request) returns (call: Call)
      requires Valid() && Admissible(request, pages.Length)
      modifies this, pages
      ensures Valid() && Used(pages[..]) == Apply(old(Used(pages[..])), call)
      ensures Answers(old(pages[..]), request, call)
    {
      call := Nothing;
      match request {
        case Get(sz) =>
          var r := Kalloc(sz);
          if r.Ptr? {
            call := Alloc(r.pa / PAGESIZE, RequestOrder(sz));
          }
        case Give(ptr) =>
          if ptr.Ptr? {
            NotUsed(pages[..], ptr.pa / PAGESIZE);
            if pages[ptr.pa / PAGESIZE].used {
              call := Free(ptr.pa / PAGESIZE);
            }
          }
          Kfree(ptr);
      }
    }
  }

  // ---------------------------------------------------------------- runs

  /** `ps` are canonical pages cut from `ranges`. */
  ghost predicate FreshlyCut(ranges: seq<MemRange.Range>, ps: Pages)
    requires PageRanges(ranges, |ps|)
  {
    && Tiling(ps) && Canonical(ps)
    && forall x: nat :: x < |ps| ==> (PageFree(ps, x) <==> MemRange.TypeAt(ranges, x * PAGESIZE) == MEM_AVAILABLE)
  }

  /** The pages at one point of a run are those that the calls so far leave of `initial`. */
  ghost predicate ReachedBy(initial: Pages, calls: seq<Call>, ps: Pages) {
    && |ps| == |initial| && Tiling(ps) && Canonical(ps)
    && Used(ps) == ApplyAll(Used(initial), calls)
  }

  /** `states` and `calls` are a run serving the first requests: `states[k]` comes before request `k`. */
  ghost predicate IsRun(requests: seq<Request>, states: seq<Pages>, calls: seq<Call>) {
    && |states| == |calls| + 1 && |calls| <= |requests|
    && (forall k :: 0 <= k < |calls| ==> Answers(states[k], requests[k], calls[k]))
    && (forall k :: 0 <= k <= |calls| ==> ReachedBy(states[0], calls[..k], states[k]))
  }

  lemma ApplyAllMore(used: map<nat, nat>, calls: seq<Call>, call: Call)
    ensures ApplyAll(used, calls + [call]) == Apply(ApplyAll(used, calls), call)
  {
    assert (calls + [call])[..|calls|] == calls;
  }

  /** Appending a call leaves the earlier states of a run as they were. */
  lemma RunPrefix(requests: seq<Request>, states: seq<Pages>, calls: seq<Call>, call: Call, k: nat)
    requires IsRun(requests, states, calls) && k <= |calls|
    ensures (calls + [call])[..k] == calls[..k] && ReachedBy(states[0], (calls + [call])[..k], states[k])
  {
    assert (calls + [call])[..k] == calls[..k];
  }

  lemma RunExtends(requests: seq<Request>, states: seq<Pages>, calls: seq<Call>, call: Call, ps: Pages)
    requires IsRun(requests, states, calls) && |calls| < |requests|
    requires Answers(states[|calls|], requests[|calls|], call)
    requires |ps| == |states[0]| && Tiling(ps) && Canonical(ps) && Used(ps) == Apply(Used(states[|calls|]), call)
    ensures IsRun(requests, states + [ps], calls + [call])
  {
    var n, calls', states' := |calls|, calls + [call], states + [ps];
    ApplyAllMore(Used(states[0]), calls, call);
    forall k | 0 <= k <= n + 1 ensures ReachedBy(states'[0], calls'[..k], states'[k]) {
      if k <= n {
        RunPrefix(requests, states, calls, call, k);
      } else {
        RunPrefix(requests, states, calls, call, n);
        assert calls'[..k] == calls' && calls'[..n] == calls;
      }
    }
  }

  /** In a run, equal blocks in use mean equal page arrays. */
  lemma RunRestores(requests: seq<Request>, states: seq<Pages>, calls: seq<Call>, i: nat, j: nat)
    requires IsRun(requests, states, calls) && i < |states| && j < |states| && Used(states[i]) == Used(states[j])
    ensures states[i] == states[j]
  {
    assert ReachedBy(states[0], calls[..i], states[i]) && ReachedBy(states[0], calls[..j], states[j]);
    UsedDeterminesPages(states[i], states[j]);
  }

  /**
   * Any run of `kalloc` and `kfree` from the state that `init_kalloc` builds. Every state is tiled
   * and canonical and is determined by the blocks in use, which are those that the calls so far
   * account for. In particular, whenever all blocks allocated since the start have been freed, in
   * whatever order, the page array is the one that `init_kalloc` built.
   */
  method RunRequests(npages: nat, ranges: seq<MemRange.Range>, requests: seq<Request>)
    returns (states: seq<Pages>, calls: seq<Call>)
    requires PageRanges(ranges, npages)
    requires forall k :: 0 <= k < |requests| ==> Admissible(requests[k], npages)
    ensures IsRun(requests, states, calls) && |calls| == |requests|
    ensures |states[0]| == npages && FreshlyCut(ranges, states[0])
    ensures forall i, j :: 0 <= i < |states| && 0 <= j < |states| && Used(states[i]) == Used(states[j]) ==>
              states[i] == states[j]
  {
    var allocator := new Allocator(npages, ranges);
    states, calls := [allocator.pages[..]], [];
    for k := 0 to |requests|
      invariant fresh(allocator) && fresh(allocator.pages) && allocator.pages.Length == npages && allocator.Valid()
      invariant IsRun(requests, states, calls) && |calls| == k && states[k] == allocator.pages[..]
      invariant |states[0]| == npages && FreshlyCut(ranges, states[0])
    {
      var call := allocator.Serve(requests[k]);
      RunExtends(requests, states, calls, call, allocator.pages[..]);
      states, calls := states + [allocator.pages[..]], calls + [call];
    }
    forall i, j | 0 <= i < |states| && 0 <= j < |states| && Used(states[i]) == Used(states[j])
      ensures states[i] == states[j]
    {
      RunRestores(requests, states, calls, i, j);
    }
  }

  /** Only heads are marked as in use. */
  lemma NotUsed(ps: Pages, p: nat)
    requires Tiling(ps) && p < |ps|
    ensures ps[p].used <==> UsedHead(ps, p)
  {
    if !Head(ps, p) {
      assert Covered(ps, p);
      var h :| Inside(ps, h, p);
    }
  }

  lemma NoneAvailable(ps: Pages, ls: Lists, order: nat, cur: int)
    requires Consistent(ps, ls) && IsOrder(order)
    requires cur == -1 || order <= cur <= MAX_ORDER
    requires cur == -1 ==> forall o :: order <= o <= MAX_ORDER ==> List(ls, o) == []
    requires cur != -1 ==> List(ls, cur) != []
    ensures cur == -1 <==> !Available(ps, order)
  {
    if cur == -1 {
      forall p | FreeHead(ps, p) ensures ps[p].order < order {
        assert p in List(ls, ps[p].order);
      }
    } else {
      var p := List(ls, cur)[0];
      assert p in List(ls, cur);
      assert FreeHead(ps, p) && order <= ps[p].order;
    }
  }

  lemma TakenFrom(ps0: Pages, ps: Pages, ps': Pages, p: nat, o: nat)
    requires Tiling(ps) && FreeHead(ps, p) && ps[p].order == o && Reshaped(ps0, ps)
    requires Used(ps') == Used(ps)[p := o]
    requires forall x :: PageFree(ps', x) <==> PageFree(ps, x) && !(p <= x < p + Size(o))
    ensures Taken(ps0, ps', p, o)
  {
  }
}
